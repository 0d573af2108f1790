/**
 RLP (Appendix B of the Ethereum Yellow Paper): the writer that encodes nodes, and the lazy reader
 that decodes them. The reader looks at item headers only, so a malformed tail of a list shortens
 the list instead of failing, and malformed data has size 0.
 */
module Rlp {
  import opened Prelude

  datatype RlpError =
    | IsTooShort
    | DataLenWithZeroPrefix
    | InvalidIndirection
    | InconsistentLengthAndData
    | ExpectedToBeData
    | IncorrectListLen
    | BranchWithValue
    | EmptyPathPanic

  /** Lengths are machine words in the program. */
  const WORD: int := 0x1_0000_0000_0000_0000

  // ----- integers

  function BigEndian(n: nat): (r: Bytes)
    ensures n > 0 ==> r != [] && r[0] != 0
    ensures n == 0 ==> r == []
  {
    if n == 0 then [] else BigEndian(n / 256) + [n % 256]
  }

  function FromBigEndian(b: Bytes): nat {
    if b == [] then 0 else 256 * FromBigEndian(b[..|b| - 1]) + b[|b| - 1] as int
  }

  lemma {:induction false} BigEndianRoundTrip(n: nat)
    ensures FromBigEndian(BigEndian(n)) == n
  {
    if n > 0 {
      BigEndianRoundTrip(n / 256);
      assert BigEndian(n)[..|BigEndian(n)| - 1] == BigEndian(n / 256);
    }
  }

  function Pow256(k: nat): nat {
    if k == 0 then 1 else 256 * Pow256(k - 1)
  }

  lemma {:induction false} BigEndianSize(n: nat, k: nat)
    requires n < Pow256(k)
    ensures |BigEndian(n)| <= k
  {
    if n > 0 { BigEndianSize(n / 256, k - 1); }
  }

  lemma {:induction false} WordSize(n: nat)
    requires n < WORD
    ensures |BigEndian(n)| <= 8
  {
    assert Pow256(8) == WORD by {
      assert Pow256(4) == 256 * Pow256(3) == 0x1_0000_0000;
      assert Pow256(6) == 256 * Pow256(5) == 0x1_0000_0000_0000;
    }
    BigEndianSize(n, 8);
  }

  // ----- writer

  /** The header byte counts the length bytes in eight bits, as the program does. */
  function Header(base: int, len: nat): Bytes
    requires base == 0x80 || base == 0xC0
  {
    if len < 56 then [base + len] else [(base + 55 + |BigEndian(len)|) % 256] + BigEndian(len)
  }

  function EncodeString(s: Bytes): (r: Bytes)
    ensures |r| == StringLength(s)
  {
    if |s| == 1 && s[0] < 0x80 then s else Header(0x80, |s|) + s
  }

  function EncodeList(payload: Bytes): (r: Bytes)
    ensures |r| == HeaderLength(|payload|) + |payload|
  {
    Header(0xC0, |payload|) + payload
  }

  /** `length_of_length` */
  function HeaderLength(len: nat): nat {
    if len < 56 then 1 else 1 + |BigEndian(len)|
  }

  function StringLength(s: Bytes): nat {
    if |s| == 1 && s[0] < 0x80 then 1 else HeaderLength(|s|) + |s|
  }

  // ----- reader

  datatype Info = Info(headerLen: nat, valueLen: nat)

  function LongInfo(b: Bytes, lenOfLen: nat): Result<Info, RlpError>
    requires 1 <= lenOfLen <= 8 && b != []
  {
    if |b| == 1 then Err(IsTooShort)
    else if b[1] == 0 then Err(DataLenWithZeroPrefix)
    else if |b| < 1 + lenOfLen then Err(IsTooShort)
    else
      var len := FromBigEndian(b[1..1 + lenOfLen]);
      if len <= 55 then Err(InvalidIndirection) else Ok(Info(1 + lenOfLen, len))
  }

  function HeaderInfo(b: Bytes): (r: Result<Info, RlpError>)
    ensures r.Ok? ==> b != [] && r.value.headerLen + r.value.valueLen > 0
    ensures r.Ok? && b[0] >= 0xC0 ==> r.value.headerLen > 0
  {
    if b == [] then Err(IsTooShort)
    else if b[0] <= 0x7F then Ok(Info(0, 1))
    else if b[0] <= 0xB7 then Ok(Info(1, b[0] - 0x80))
    else if b[0] <= 0xBF then LongInfo(b, b[0] - 0xB7)
    else if b[0] <= 0xF7 then Ok(Info(1, b[0] - 0xC0))
    else LongInfo(b, b[0] - 0xF7)
  }

  /** The extent of the item at the front of the buffer. */
  function PayloadInfo(b: Bytes): (r: Result<Info, RlpError>)
    ensures r.Ok? ==> 0 < r.value.headerLen + r.value.valueLen <= |b|
    ensures r.Ok? && b[0] >= 0xC0 ==> r.value.headerLen > 0
  {
    var r := HeaderInfo(b);
    if r.Err? || r.value.headerLen + r.value.valueLen <= |b| then r else Err(IsTooShort)
  }

  /** The data of a string item; a list is not data. */
  function DecodeData(b: Bytes): Result<Bytes, RlpError> {
    if b == [] then Err(IsTooShort)
    else if b[0] <= 0x7F then Ok(b[..1])
    else if b[0] <= 0xB7 then
      var last := 1 + b[0] as int - 0x80;
      if |b| < last then Err(InconsistentLengthAndData)
      else if b[0] == 0x81 && b[1] < 0x80 then Err(InvalidIndirection)
      else Ok(b[1..last])
    else if b[0] <= 0xBF then
      var r := LongInfo(b, b[0] - 0xB7);
      if r.Err? then Err(r.error)
      else if |b| < r.value.headerLen + r.value.valueLen then Err(InconsistentLengthAndData)
      else Ok(b[r.value.headerLen..r.value.headerLen + r.value.valueLen])
    else Err(ExpectedToBeData)
  }

  /** The items of a list payload, up to the first one that cannot be read. */
  function Items(b: Bytes): (r: seq<Bytes>)
    ensures forall x :: x in r ==> 0 < |x| <= |b|
  {
    var i := PayloadInfo(b);
    if i.Err? then []
    else
      var size := i.value.headerLen + i.value.valueLen;
      [b[..size]] + Items(b[size..])
  }

  function ListPayload(b: Bytes): (r: Option<Bytes>)
    requires b != [] && b[0] >= 0xC0
    ensures r.Some? ==> |r.value| < |b|
  {
    var i := PayloadInfo(b);
    if i.Err? then None else Some(b[i.value.headerLen..i.value.headerLen + i.value.valueLen])
  }

  /** The items of a list item. */
  function ListItems(b: Bytes): (r: seq<Bytes>)
    requires b != [] && b[0] >= 0xC0
    ensures forall x :: x in r ==> 0 < |x| < |b|
  {
    var p := ListPayload(b);
    if p.None? then [] else Items(p.value)
  }

  /** The size of data as `prototype` reports it. */
  function DataSize(b: Bytes): nat
    requires b != [] && b[0] < 0xC0
  {
    var i := PayloadInfo(b);
    if i.Ok? then i.value.valueLen else 0
  }

  // ----- reading what was written

  /** Exactly one item, whatever follows it. */
  predicate IsItem(x: Bytes) {
    && x != []
    && HeaderInfo(x).Ok?
    && HeaderInfo(x).value.headerLen + HeaderInfo(x).value.valueLen == |x|
  }

  lemma {:induction false} HeaderInfoStable(x: Bytes, rest: Bytes)
    requires HeaderInfo(x).Ok?
    ensures HeaderInfo(x + rest) == HeaderInfo(x)
  {
    if 0xB7 < x[0] <= 0xBF {
      assert (x + rest)[1..1 + (x[0] - 0xB7)] == x[1..1 + (x[0] - 0xB7)];
    } else if x[0] > 0xF7 {
      assert (x + rest)[1..1 + (x[0] - 0xF7)] == x[1..1 + (x[0] - 0xF7)];
    }
  }

  lemma {:induction false} HeaderInfoOfFront(b: Bytes, size: nat)
    requires HeaderInfo(b).Ok? && HeaderInfo(b).value.headerLen + HeaderInfo(b).value.valueLen == size <= |b|
    ensures IsItem(b[..size])
  {
    var x := b[..size];
    if 0xB7 < b[0] <= 0xBF {
      assert x[1..1 + (b[0] - 0xB7)] == b[1..1 + (b[0] - 0xB7)];
    } else if b[0] > 0xF7 {
      assert x[1..1 + (b[0] - 0xF7)] == b[1..1 + (b[0] - 0xF7)];
    }
  }

  /** Whatever is split off a payload is exactly one item. */
  lemma {:induction false} ItemsAreItems(b: Bytes, x: Bytes)
    requires x in Items(b)
    ensures IsItem(x)
    decreases |b|
  {
    var size := PayloadInfo(b).value.headerLen + PayloadInfo(b).value.valueLen;
    HeaderInfoOfFront(b, size);
    if x != b[..size] { ItemsAreItems(b[size..], x); }
  }

  lemma {:induction false} LongHeader(base: int, s: Bytes)
    requires (base == 0x80 || base == 0xC0) && 56 <= |s| < WORD
    ensures var x := Header(base, |s|) + s;
            && HeaderInfo(x) == Ok(Info(|Header(base, |s|)|, |s|))
            && base + 56 <= x[0] <= base + 63
  {
    var be := BigEndian(|s|);
    WordSize(|s|);
    BigEndianRoundTrip(|s|);
    LongHeaderForm(base, |s|, be);
    LongHeaderInfo(base, be, s);
  }

  lemma {:induction false} LongHeaderInfo(base: int, be: Bytes, s: Bytes)
    requires (base == 0x80 || base == 0xC0) && 1 <= |be| <= 8 && be[0] != 0 && FromBigEndian(be) == |s| >= 56
    ensures HeaderInfo([base + 55 + |be|] + be + s) == Ok(Info(1 + |be|, |s|))
  {
    var x := [base + 55 + |be|] + be + s;
    assert x[1..1 + |be|] == be;
  }

  lemma {:induction false} HeaderOfWritten(base: int, s: Bytes)
    requires (base == 0x80 || base == 0xC0) && |s| < WORD
    ensures HeaderInfo(Header(base, |s|) + s) == Ok(Info(|Header(base, |s|)|, |s|))
    ensures base == 0xC0 ==> (Header(base, |s|) + s)[0] >= 0xC0
    ensures base == 0x80 ==> 0x80 <= (Header(base, |s|) + s)[0] < 0xC0
  {
    if |s| >= 56 { LongHeader(base, s); }
  }

  lemma {:induction false} WrittenString(s: Bytes)
    requires |s| < WORD
    ensures IsItem(EncodeString(s)) && DecodeData(EncodeString(s)) == Ok(s)
    ensures EncodeString(s)[0] < 0xC0
    ensures DataSize(EncodeString(s)) == |s|
  {
    var x := EncodeString(s);
    if |s| == 1 && s[0] < 0x80 {
      assert x[..1] == s;
    } else {
      HeaderOfWritten(0x80, s);
      assert x[|Header(0x80, |s|)|..] == s;
      assert x[|Header(0x80, |s|)|..|x|] == s;
    }
  }

  lemma {:induction false} PayloadSlice(header: Bytes, payload: Bytes)
    ensures (header + payload)[|header|..|header| + |payload|] == payload
  {
  }

  lemma {:induction false} ListPayloadOf(b: Bytes, h: nat, payload: Bytes)
    requires b != [] && b[0] >= 0xC0 && |b| == h + |payload|
    requires HeaderInfo(b) == Ok(Info(h, |payload|)) && b[h..h + |payload|] == payload
    ensures ListPayload(b) == Some(payload)
  {
  }

  lemma {:induction false} PayloadOfWhole(header: Bytes, payload: Bytes)
    requires header != [] && header[0] >= 0xC0
    requires HeaderInfo(header + payload) == Ok(Info(|header|, |payload|))
    ensures ListItems(header + payload) == Items(payload)
  {
    PayloadSlice(header, payload);
    ListPayloadOf(header + payload, |header|, payload);
  }

  lemma {:induction false} WrittenList(payload: Bytes)
    requires |payload| < WORD
    ensures IsItem(EncodeList(payload)) && EncodeList(payload)[0] >= 0xC0
    ensures ListItems(EncodeList(payload)) == Items(payload)
  {
    var x := EncodeList(payload);
    HeaderOfWritten(0xC0, payload);
    PayloadOfWhole(Header(0xC0, |payload|), payload);
  }

  function Flatten(xs: seq<Bytes>): Bytes {
    if xs == [] then [] else xs[0] + Flatten(xs[1..])
  }

  /** The reader splits a payload at exactly the items it was put together from. */
  lemma {:induction false} ItemsOfFlatten(xs: seq<Bytes>)
    requires forall x :: x in xs ==> IsItem(x)
    ensures Items(Flatten(xs)) == xs
  {
    if xs != [] {
      var rest := Flatten(xs[1..]);
      assert IsItem(xs[0]);
      HeaderInfoStable(xs[0], rest);
      assert (xs[0] + rest)[..|xs[0]|] == xs[0];
      assert (xs[0] + rest)[|xs[0]|..] == rest;
      ItemsOfFlatten(xs[1..]);
    }
  }

  lemma {:induction false} FlattenAppend(xs: seq<Bytes>, ys: seq<Bytes>)
    ensures Flatten(xs + ys) == Flatten(xs) + Flatten(ys)
  {
    if xs == [] {
      assert xs + ys == ys;
    } else {
      FlattenAppend(xs[1..], ys);
      assert (xs + ys)[1..] == xs[1..] + ys;
      assert (xs + ys)[0] == xs[0];
    }
  }

  // ----- the bytes of the standard, and nothing else

  /** The bytes of a positive number, most significant first, with none to spare. */
  predicate IsBigEndian(be: Bytes, n: nat) {
    be != [] && be[0] != 0 && FromBigEndian(be) == n
  }

  /** One byte up to a length of 55; else how many bytes the length has, and those. */
  ghost predicate IsHeader(short: int, long: int, len: nat, h: Bytes) {
    if len <= 55 then h == [short + len]
    else exists be :: IsBigEndian(be, len) && |be| <= 8 && h == [long + |be|] + be
  }

  lemma {:induction false} OneDigitMore(n: nat, last: Byte)
    requires n > 0 || last > 0
    ensures BigEndian(256 * n + last as int) == BigEndian(n) + [last]
  {
    var m := 256 * n + last as int;
    assert m / 256 == n && m % 256 == last;
  }

  lemma {:induction false} BigEndianOf(be: Bytes)
    requires be == [] || be[0] != 0
    ensures BigEndian(FromBigEndian(be)) == be
    ensures be != [] ==> FromBigEndian(be) > 0
  {
    if be != [] {
      var most, last := be[..|be| - 1], be[|be| - 1];
      BigEndianOf(most);
      OneDigitMore(FromBigEndian(most), last);
      assert be == most + [last];
    }
  }

  lemma {:induction false} LongHeaderIs(base: int, be: Bytes, len: nat)
    requires (base == 0x80 || base == 0xC0) && len >= 56 && IsBigEndian(be, len) && |be| <= 8
    ensures IsHeader(base, base + 55, len, [base + 55 + |be|] + be)
  {
  }

  lemma {:induction false} LongHeaderForm(base: int, len: nat, be: Bytes)
    requires (base == 0x80 || base == 0xC0) && len >= 56 && be == BigEndian(len) && |be| <= 8
    ensures Header(base, len) == [base + 55 + |be|] + be
  {
  }

  lemma {:induction false} HeaderIs(base: int, len: nat)
    requires (base == 0x80 || base == 0xC0) && len < WORD
    ensures IsHeader(base, base + 55, len, Header(base, len))
  {
    if len >= 56 {
      BigEndianRoundTrip(len);
      WordSize(len);
      LongHeaderForm(base, len, BigEndian(len));
      LongHeaderIs(base, BigEndian(len), len);
    }
  }

  /** Section "string" of Appendix B: a single byte below 128 is itself, all else has a header. */
  lemma {:induction false} StringBytes(s: Bytes) returns (h: Bytes)
    requires |s| < WORD
    ensures EncodeString(s) == h + s
    ensures if |s| == 1 && s[0] <= 127 then h == [] else IsHeader(0x80, 0xB7, |s|, h)
  {
    HeaderIs(0x80, |s|);
    h := if |s| == 1 && s[0] < 0x80 then [] else Header(0x80, |s|);
    assert EncodeString(s) == h + s;
  }

  lemma {:induction false} ListBytes(payload: Bytes) returns (h: Bytes)
    requires |payload| < WORD
    ensures EncodeList(payload) == h + payload && IsHeader(0xC0, 0xF7, |payload|, h)
  {
    HeaderIs(0xC0, |payload|);
    h := Header(0xC0, |payload|);
  }

  lemma {:induction false} LongHeaderRead(base: int, b: Bytes, lenOfLen: nat)
    requires (base == 0x80 || base == 0xC0) && 1 <= lenOfLen <= 8
    requires b != [] && b[0] == base + 55 + lenOfLen && LongInfo(b, lenOfLen).Ok?
    ensures var i := LongInfo(b, lenOfLen).value;
            i.headerLen == 1 + lenOfLen <= |b| && b[..i.headerLen] == Header(base, i.valueLen)
  {
    var be := b[1..1 + lenOfLen];
    BigEndianOf(be);
    LongHeaderForm(base, FromBigEndian(be), be);
    assert b[..1 + lenOfLen] == [b[0]] + be;
  }

  /** A header that can be read is one that is written. */
  lemma {:induction false} HeaderRead(b: Bytes)
    requires HeaderInfo(b).Ok? && b[0] >= 0x80
    ensures var i := HeaderInfo(b).value;
            i.headerLen <= |b| && b[..i.headerLen] == Header(if b[0] >= 0xC0 then 0xC0 else 0x80, i.valueLen)
  {
    if 0xB7 < b[0] <= 0xBF {
      LongHeaderRead(0x80, b, b[0] - 0xB7);
    } else if b[0] > 0xF7 {
      LongHeaderRead(0xC0, b, b[0] - 0xF7);
    } else {
      assert b[..1] == [b[0]];
    }
  }

  lemma {:induction false} Extent(b: Bytes, h: nat, n: nat)
    requires h + n <= |b|
    ensures b[..h] + b[h..h + n] == b[..h + n]
  {
  }

  lemma {:induction false} DataRead(b: Bytes, s: Bytes)
    requires DecodeData(b) == Ok(s)
    ensures EncodeString(s) <= b
  {
    if b[0] >= 0x80 {
      var h := DataIsPayload(b, s);
      HeaderRead(b);
      Extent(b, h, |s|);
      StringOf(b, b[..h], s);
    }
  }

  lemma {:induction false} DataIsPayload(b: Bytes, s: Bytes) returns (h: nat)
    requires DecodeData(b) == Ok(s) && b[0] >= 0x80
    ensures b[0] < 0xC0 && HeaderInfo(b) == Ok(Info(h, |s|)) && h + |s| <= |b| && b[h..h + |s|] == s
    ensures !(|s| == 1 && s[0] < 0x80)
  {
    h := HeaderInfo(b).value.headerLen;
    if b[0] == 0x81 { assert s[0] == b[1]; }
  }

  lemma {:induction false} StringOf(b: Bytes, h: Bytes, s: Bytes)
    requires h + s <= b && h == Header(0x80, |s|) && !(|s| == 1 && s[0] < 0x80)
    ensures EncodeString(s) <= b
  {
  }

  lemma {:induction false} DataAt(b: Bytes, h: Bytes, s: Bytes)
    requires h != [] && 0x80 <= h[0] < 0xC0 && h + s <= b && HeaderInfo(b) == Ok(Info(|h|, |s|))
    requires !(|s| == 1 && s[0] < 0x80)
    ensures DecodeData(b) == Ok(s)
  {
    assert b[|h|..|h| + |s|] == s by { assert b[..|h + s|] == h + s; }
    if b[0] == 0x81 { assert b[1] == s[0]; }
  }

  /** Data is read exactly from the bytes that are written for it, whatever follows. */
  lemma {:induction false} DataExactly(b: Bytes, s: Bytes)
    requires |s| < WORD
    ensures DecodeData(b) == Ok(s) <==> EncodeString(s) <= b
  {
    var x := EncodeString(s);
    if DecodeData(b) == Ok(s) { DataRead(b, s); }
    if x <= b {
      if |s| == 1 && s[0] < 0x80 {
        assert b[..1] == s;
      } else {
        assert b == x + b[|x|..];
        HeaderOfWritten(0x80, s);
        HeaderInfoStable(x, b[|x|..]);
        DataAt(b, Header(0x80, |s|), s);
      }
    }
  }

  /** And the payload of a list. */
  lemma {:induction false} ListExactly(b: Bytes, payload: Bytes)
    requires b != [] && b[0] >= 0xC0 && |payload| < WORD
    ensures ListPayload(b) == Some(payload) <==> EncodeList(payload) <= b
  {
    if ListPayload(b) == Some(payload) { ListRead(b); }
    if EncodeList(payload) <= b { ListAtFront(b, payload); }
  }

  lemma {:induction false} ListRead(b: Bytes)
    requires b != [] && b[0] >= 0xC0 && ListPayload(b).Some?
    ensures EncodeList(ListPayload(b).value) <= b
  {
    HeaderRead(b);
    var i := HeaderInfo(b).value;
    Extent(b, i.headerLen, i.valueLen);
  }

  lemma {:induction false} ListAtFrontInfo(payload: Bytes, rest: Bytes) returns (h: nat)
    requires |payload| < WORD
    ensures var b := EncodeList(payload) + rest;
            b[0] >= 0xC0 && PayloadInfo(b) == Ok(Info(h, |payload|)) && b[h..] == payload + rest
  {
    var x := EncodeList(payload);
    h := |Header(0xC0, |payload|)|;
    HeaderOfWritten(0xC0, payload);
    HeaderInfoStable(x, rest);
    Regroup(Header(0xC0, |payload|), payload, rest);
  }

  lemma {:induction false} ListAtFront(b: Bytes, payload: Bytes)
    requires |payload| < WORD && EncodeList(payload) <= b
    ensures b != [] && b[0] >= 0xC0 && ListPayload(b) == Some(payload)
  {
    var rest := b[|EncodeList(payload)|..];
    assert b == EncodeList(payload) + rest;
    var h := ListAtFrontInfo(payload, rest);
    assert b[h..][..|payload|] == payload;
  }

  /** An item holds data exactly if it is the bytes that are written for it. */
  lemma {:induction false} ItemExactly(x: Bytes, s: Bytes)
    requires IsItem(x) && |x| < WORD
    ensures DecodeData(x) == Ok(s) <==> x == EncodeString(s)
  {
    if DecodeData(x) == Ok(s) {
      DataRead(x, s);
      var y := EncodeString(s);
      WrittenString(s);
      HeaderInfoStable(y, x[|y|..]);
      assert x == y + x[|y|..];
    }
    if x == EncodeString(s) { WrittenString(s); }
  }
}
