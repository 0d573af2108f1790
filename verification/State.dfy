/** Accounts, storage and their encoding inside the tries. */
module State {
  import opened Prelude
  import opened HexPrefix
  import opened Rlp
  import opened TrieCodec

  type Address = a: Bytes | |a| == 20 witness seq(20, _ => 0)

  const WORD256: int := 0x1_0000000000000000_0000000000000000_0000000000000000_0000000000000000
  type U256 = x: int | 0 <= x < 0x1_0000000000000000_0000000000000000_0000000000000000_0000000000000000
  type U64 = x: int | 0 <= x < 0x1_0000_0000_0000_0000

  const KECCAK_EMPTY: Hash := [
    0xc5, 0xd2, 0x46, 0x01, 0x86, 0xf7, 0x23, 0x3c, 0x92, 0x7e, 0x7d, 0xb2, 0xdc, 0xc7, 0x03, 0xc0,
    0xe5, 0x00, 0xb6, 0x53, 0xca, 0x82, 0x27, 0x3b, 0x7b, 0xfa, 0xd8, 0x04, 0x5d, 0x85, 0xa4, 0x70]

  /** An account as the state trie stores it. */
  datatype StateAccount = StateAccount(nonce: U64, balance: U256, storageRoot: Hash, codeHash: Hash)

  const DEFAULT_ACCOUNT: StateAccount := StateAccount(0, 0, EMPTY_ROOT, KECCAK_EMPTY)

  // ----- writing

  function EncodeUint(x: nat): Bytes {
    EncodeString(BigEndian(x))
  }

  function AccountPayload(a: StateAccount): Bytes {
    EncodeUint(a.nonce) + (EncodeUint(a.balance) + (EncodeString(a.storageRoot) + EncodeString(a.codeHash)))
  }

  function EncodeAccount(a: StateAccount): Bytes {
    EncodeList(AccountPayload(a))
  }

  // ----- reading

  datatype Taken<+T> = Taken(value: T, rest: Bytes) | Malformed

  /** Takes one string off the front; a single byte below 0x80 must not have a header. */
  function TakeString(b: Bytes): Taken<Bytes> {
    var i := PayloadInfo(b);
    if i.Err? || b[0] >= 0xC0 then Malformed
    else
      var h, n := i.value.headerLen, i.value.valueLen;
      if h == 1 && n == 1 && b[1] < 0x80 then Malformed else Taken(b[h..h + n], b[h + n..])
  }

  /** Takes one integer of at most `size` bytes; leading zeros are refused. */
  function TakeUint(b: Bytes, size: nat): (r: Taken<nat>)
    ensures r.Taken? ==> r.value < Pow256(size)
  {
    var s := TakeString(b);
    if s.Malformed? || |s.value| > size || (s.value != [] && s.value[0] == 0) then Malformed
    else
      FromBigEndianBound(s.value);
      Pow256Grows(|s.value|, size);
      Taken(FromBigEndian(s.value), s.rest)
  }

  function TakeHash(b: Bytes): Taken<Hash> {
    var s := TakeString(b);
    if s.Malformed? || |s.value| != 32 then Malformed else Taken(s.value, s.rest)
  }

  /** What follows a value is not looked at. */
  function DecodeUint(b: Bytes): Option<U256> {
    var r := TakeUint(b, 32);
    Pow256Of32();
    if r.Malformed? then None else Some(r.value)
  }

  function TakeFields(b: Bytes): Taken<StateAccount> {
    var nonce := TakeUint(b, 8);
    if nonce.Malformed? then Malformed
    else
      var balance := TakeUint(nonce.rest, 32);
      if balance.Malformed? then Malformed
      else
        var root := TakeHash(balance.rest);
        if root.Malformed? then Malformed
        else
          var code := TakeHash(root.rest);
          if code.Malformed? then Malformed
          else
            Pow256Of32();
            Taken(StateAccount(nonce.value, balance.value, root.value, code.value), code.rest)
  }

  /** The fields are read on past the list; then exactly the list must have been consumed. */
  function DecodeAccount(b: Bytes): Option<StateAccount> {
    var i := PayloadInfo(b);
    if i.Err? || b[0] < 0xC0 then None
    else
      var body := b[i.value.headerLen..];
      Consumed(TakeFields(body), |body|, i.value.valueLen)
  }

  function Consumed(r: Taken<StateAccount>, size: nat, expected: nat): Option<StateAccount> {
    if r.Malformed? || size - |r.rest| != expected then None else Some(r.value)
  }

  // ----- arithmetic

  lemma {:induction false} Pow256Grows(a: nat, b: nat)
    requires a <= b
    ensures Pow256(a) <= Pow256(b)
    decreases b
  {
    if a < b { Pow256Grows(a, b - 1); }
  }

  lemma {:induction false} FromBigEndianBound(b: Bytes)
    ensures FromBigEndian(b) < Pow256(|b|)
  {
    if b != [] { FromBigEndianBound(b[..|b| - 1]); }
  }

  lemma {:induction false} Pow256Add(a: nat, b: nat)
    ensures Pow256(a + b) == Pow256(a) * Pow256(b)
    decreases a
  {
    if a > 0 { Pow256Add(a - 1, b); }
  }

  lemma {:induction false} Pow256Of32()
    ensures Pow256(8) == 0x1_0000_0000_0000_0000 && Pow256(32) == WORD256
  {
    assert Pow256(4) == 0x1_0000_0000;
    Pow256Add(4, 4);
    Pow256Add(8, 8);
    Pow256Add(16, 16);
  }

  // ----- round trips

  lemma {:induction false} WrittenShape(s: Bytes) returns (h: nat)
    requires |s| < WORD
    ensures var x := EncodeString(s);
            && h + |s| == |x| && x != [] && x[0] < 0xC0 && x[h..] == s
            && HeaderInfo(x) == Ok(Info(h, |s|))
            && (|s| == 1 && s[0] < 0x80 ==> h == 0)
  {
    if |s| == 1 && s[0] < 0x80 {
      h := 0;
    } else {
      HeaderOfWritten(0x80, s);
      h := |Header(0x80, |s|)|;
      assert EncodeString(s)[h..] == s;
    }
  }

  lemma {:induction false} Slices(x: Bytes, h: nat, rest: Bytes)
    requires h <= |x|
    ensures (x + rest)[h..|x|] == x[h..] && (x + rest)[|x|..] == rest && (x != [] ==> (x + rest)[0] == x[0])
  {
  }

  lemma {:induction false} TakeHeaded(b: Bytes, h: nat, end: nat, s: Bytes, rest: Bytes)
    requires HeaderInfo(b) == Ok(Info(h, |s|)) && h + |s| == end <= |b| && b != [] && b[0] < 0xC0
    requires b[h..end] == s && b[end..] == rest && (h == 1 && |s| == 1 ==> s[0] >= 0x80)
    ensures TakeString(b) == Taken(s, rest)
  {
    if h == 1 && |s| == 1 { assert b[1] == s[0]; }
  }

  /** A string item is taken off the front, whatever follows. */
  lemma {:induction false} TakeItem(x: Bytes, h: nat, s: Bytes, rest: Bytes)
    requires h + |s| == |x| && x != [] && x[0] < 0xC0 && x[h..] == s
    requires HeaderInfo(x) == Ok(Info(h, |s|))
    requires |s| == 1 && s[0] < 0x80 ==> h == 0
    ensures TakeString(x + rest) == Taken(s, rest)
  {
    HeaderInfoStable(x, rest);
    Slices(x, h, rest);
    TakeHeaded(x + rest, h, |x|, s, rest);
  }

  lemma {:induction false} TakeWritten(s: Bytes, rest: Bytes)
    requires |s| < WORD
    ensures TakeString(EncodeString(s) + rest) == Taken(s, rest)
  {
    var h := WrittenShape(s);
    TakeItem(EncodeString(s), h, s, rest);
  }

  lemma {:induction false} TakeWrittenUint(x: nat, size: nat, rest: Bytes)
    requires x < Pow256(size) && size <= 32
    ensures TakeUint(EncodeUint(x) + rest, size) == Taken(x, rest)
  {
    BigEndianSize(x, size);
    BigEndianRoundTrip(x);
    TakeWritten(BigEndian(x), rest);
  }

  lemma {:induction false} UintRoundTrip(x: U256)
    ensures DecodeUint(EncodeUint(x)) == Some(x)
  {
    UintExactly(EncodeUint(x), x);
  }

  lemma {:induction false} TakeWrittenHash(h: Hash, rest: Bytes)
    ensures TakeHash(EncodeString(h) + rest) == Taken(h, rest)
  {
    TakeWritten(h, rest);
  }

  lemma {:induction false} UintLength(x: U256)
    ensures |EncodeUint(x)| <= 33
  {
    Pow256Of32();
    BigEndianSize(x, 32);
  }

  lemma {:induction false} PayloadIsShort(a: StateAccount)
    ensures |AccountPayload(a)| < WORD
  {
    UintLength(a.nonce);
    UintLength(a.balance);
  }

  // ----- exactly what is written can be read

  lemma {:induction false} TakenString(b: Bytes, s: Bytes, rest: Bytes)
    requires TakeString(b) == Taken(s, rest)
    ensures b == EncodeString(s) + rest
  {
    var i := HeaderInfo(b).value;
    if b[0] >= 0x80 { HeaderRead(b); }
    assert b == b[..i.headerLen] + b[i.headerLen..i.headerLen + i.valueLen] + b[i.headerLen + i.valueLen..];
  }

  lemma {:induction false} TakenUint(b: Bytes, size: nat, x: nat, rest: Bytes)
    requires TakeUint(b, size) == Taken(x, rest)
    ensures b == EncodeUint(x) + rest
  {
    var s := TakeString(b);
    TakenString(b, s.value, s.rest);
    BigEndianOf(s.value);
  }

  lemma {:induction false} TakenFields(b: Bytes, a: StateAccount, rest: Bytes)
    requires TakeFields(b) == Taken(a, rest)
    ensures b == AccountPayload(a) + rest
  {
    var nonce := TakeUint(b, 8);
    var balance := TakeUint(nonce.rest, 32);
    var root := TakeHash(balance.rest);
    TakenUint(b, 8, a.nonce, nonce.rest);
    TakenUint(nonce.rest, 32, a.balance, balance.rest);
    TakenString(balance.rest, a.storageRoot, root.rest);
    TakenString(root.rest, a.codeHash, rest);
    FourParts(EncodeUint(a.nonce), EncodeUint(a.balance), EncodeString(a.storageRoot), EncodeString(a.codeHash), rest);
  }

  lemma {:induction false} FourParts(w: Bytes, x: Bytes, y: Bytes, z: Bytes, rest: Bytes)
    ensures w + (x + (y + (z + rest))) == (w + (x + (y + z))) + rest
  {
  }

  /** A number is read exactly from its canonical bytes, whatever follows. */
  lemma {:induction false} UintExactly(b: Bytes, x: U256)
    ensures DecodeUint(b) == Some(x) <==> EncodeUint(x) <= b
  {
    if DecodeUint(b) == Some(x) { TakenUint(b, 32, x, TakeUint(b, 32).rest); }
    if EncodeUint(x) <= b {
      var rest := Behind(EncodeUint(x), b);
      UintAtFront(x, rest);
    }
  }

  lemma {:induction false} Behind(x: Bytes, b: Bytes) returns (rest: Bytes)
    requires x <= b
    ensures b == x + rest
  {
    rest := b[|x|..];
  }

  lemma {:induction false} UintAtFront(x: U256, rest: Bytes)
    ensures DecodeUint(EncodeUint(x) + rest) == Some(x)
  {
    Pow256Of32();
    TakeWrittenUint(x, 32, rest);
  }

  /** A number is written as its bytes, most significant first and none to spare; zero has none. */
  lemma {:induction false} UintBytes(x: U256) returns (be: Bytes)
    ensures EncodeUint(x) == EncodeString(be) && if x == 0 then be == [] else IsBigEndian(be, x)
  {
    be := BigEndian(x);
    BigEndianRoundTrip(x);
  }

  lemma {:induction false} FourItems(w: Bytes, x: Bytes, y: Bytes, z: Bytes)
    requires IsItem(w) && IsItem(x) && IsItem(y) && IsItem(z)
    ensures Items(w + (x + (y + z))) == [w, x, y, z]
  {
    FlattenAppend([w], [x, y, z]);
    FlattenAppend([x], [y, z]);
    FlattenAppend([y], [z]);
    assert [w] + [x, y, z] == [w, x, y, z] && [x] + [y, z] == [x, y, z] && [y] + [z] == [y, z];
    assert Flatten([w]) == w && Flatten([x]) == x && Flatten([y]) == y && Flatten([z]) == z;
    ItemsOfFlatten([w, x, y, z]);
  }

  lemma {:induction false} UintIsItem(x: U256)
    ensures IsItem(EncodeUint(x))
  {
    Pow256Of32();
    BigEndianSize(x, 32);
    WrittenString(BigEndian(x));
  }

  /** The four fields of an account, in this order, as the items of one list. */
  lemma {:induction false} AccountItems(a: StateAccount)
    ensures EncodeAccount(a)[0] >= 0xC0
    ensures ListItems(EncodeAccount(a)) ==
            [EncodeUint(a.nonce), EncodeUint(a.balance), EncodeString(a.storageRoot), EncodeString(a.codeHash)]
  {
    PayloadIsShort(a);
    WrittenList(AccountPayload(a));
    UintIsItem(a.nonce);
    UintIsItem(a.balance);
    WrittenString(a.storageRoot);
    WrittenString(a.codeHash);
    FourItems(EncodeUint(a.nonce), EncodeUint(a.balance), EncodeString(a.storageRoot), EncodeString(a.codeHash));
  }

  lemma {:induction false} WholeListTaken(b: Bytes, h: nat, n: nat, payload: Bytes, rest: Bytes)
    requires h + n <= |b| && b[h..] == payload + rest && n == |payload|
    ensures b[h..h + n] == payload
  {
    assert b[h..][..n] == payload;
  }

  lemma {:induction false} ListOfFields(b: Bytes, h: nat, a: StateAccount, rest: Bytes)
    requires b != [] && b[0] >= 0xC0 && PayloadInfo(b) == Ok(Info(h, |AccountPayload(a)|))
    requires b[h..] == AccountPayload(a) + rest
    ensures EncodeAccount(a) <= b
  {
    ListOfPayload(b, h, AccountPayload(a), rest);
  }

  lemma {:induction false} ListOfPayload(b: Bytes, h: nat, payload: Bytes, rest: Bytes)
    requires b != [] && b[0] >= 0xC0 && PayloadInfo(b) == Ok(Info(h, |payload|)) && b[h..] == payload + rest
    ensures EncodeList(payload) <= b
  {
    WholeListTaken(b, h, |payload|, payload, rest);
    ListRead(b);
  }

  lemma {:induction false} DecodedAccount(b: Bytes, a: StateAccount)
    requires DecodeAccount(b) == Some(a)
    ensures EncodeAccount(a) <= b
  {
    var h, rest := AccountParts(b, a);
    TakenFields(b[h..], a, rest);
    ListOfFields(b, h, a, rest);
  }

  lemma {:induction false} AccountParts(b: Bytes, a: StateAccount) returns (h: nat, rest: Bytes)
    requires DecodeAccount(b) == Some(a)
    ensures b != [] && b[0] >= 0xC0 && h <= |b| && TakeFields(b[h..]) == Taken(a, rest)
    ensures |rest| <= |b[h..]| && PayloadInfo(b) == Ok(Info(h, |b[h..]| - |rest|))
  {
    var i := PayloadInfo(b).value;
    h := i.headerLen;
    rest := WhatIsLeft(TakeFields(b[h..]), |b[h..]|, i.valueLen, a);
  }

  lemma {:induction false} WhatIsLeft(r: Taken<StateAccount>, size: nat, expected: nat, a: StateAccount) returns (rest: Bytes)
    requires Consumed(r, size, expected) == Some(a)
    ensures r == Taken(a, rest) && size - |rest| == expected
  {
    rest := r.rest;
  }

  lemma {:induction false} AccountOf(b: Bytes, h: nat, a: StateAccount, rest: Bytes)
    requires b != [] && b[0] >= 0xC0 && PayloadInfo(b) == Ok(Info(h, |AccountPayload(a)|))
    requires b[h..] == AccountPayload(a) + rest
    ensures DecodeAccount(b) == Some(a)
  {
    FieldsAtFront(a, rest);
  }

  lemma {:induction false} AccountAtFront(a: StateAccount, rest: Bytes)
    ensures DecodeAccount(EncodeAccount(a) + rest) == Some(a)
  {
    PayloadIsShort(a);
    var h := ListAtFrontInfo(AccountPayload(a), rest);
    AccountOf(EncodeAccount(a) + rest, h, a, rest);
  }

  /** An account is read exactly from its canonical bytes, whatever follows. */
  lemma {:induction false} AccountExactly(b: Bytes, a: StateAccount)
    ensures DecodeAccount(b) == Some(a) <==> EncodeAccount(a) <= b
  {
    if DecodeAccount(b) == Some(a) { DecodedAccount(b, a); }
    if EncodeAccount(a) <= b {
      var rest := Behind(EncodeAccount(a), b);
      AccountAtFront(a, rest);
    }
  }

  /** In particular, an account written to the trie is read back as it was. */
  lemma {:induction false} AccountRoundTrip(a: StateAccount)
    ensures DecodeAccount(EncodeAccount(a)) == Some(a)
  {
    AccountExactly(EncodeAccount(a), a);
  }

  lemma {:induction false} FieldsAtFront(a: StateAccount, rest: Bytes)
    ensures TakeFields(AccountPayload(a) + rest) == Taken(a, rest)
  {
    var p4 := EncodeString(a.codeHash) + rest;
    var p3 := EncodeString(a.storageRoot) + p4;
    var p2 := EncodeUint(a.balance) + p3;
    Pow256Of32();
    FourParts(EncodeUint(a.nonce), EncodeUint(a.balance), EncodeString(a.storageRoot), EncodeString(a.codeHash), rest);
    TakeWrittenUint(a.nonce, 8, p2);
    TakeWrittenUint(a.balance, 32, p3);
    TakeWrittenHash(a.storageRoot, p4);
    TakeWrittenHash(a.codeHash, rest);
  }

  // ----- keys

  /** Big-endian bytes of fixed length. */
  function FixedBytes(x: nat, size: nat): (r: Bytes)
    ensures |r| == size
  {
    if size == 0 then [] else FixedBytes(x / 256, size - 1) + [x % 256]
  }

  lemma {:induction false} FixedBytesValue(x: nat, size: nat)
    requires x < Pow256(size)
    ensures FromBigEndian(FixedBytes(x, size)) == x
  {
    if size > 0 {
      FixedBytesValue(x / 256, size - 1);
      assert FixedBytes(x, size)[..size - 1] == FixedBytes(x / 256, size - 1);
    }
  }

  lemma {:induction false} SameValueSameBytes(b: Bytes, c: Bytes)
    requires |b| == |c| && FromBigEndian(b) == FromBigEndian(c)
    ensures b == c
  {
    if b != [] {
      SameValueSameBytes(b[..|b| - 1], c[..|c| - 1]);
      assert b == b[..|b| - 1] + [b[|b| - 1]] && c == c[..|c| - 1] + [c[|c| - 1]];
    }
  }

  lemma {:induction false} FixedBytesOfZero(size: nat)
    ensures forall i :: 0 <= i < size ==> FixedBytes(0, size)[i] == 0
  {
    if size > 0 { FixedBytesOfZero(size - 1); }
  }

  const KEY_NIBBLES: nat := 64

  function AccountKey(H: Hasher, a: Address): (k: Nibbles)
    ensures |k| == KEY_NIBBLES
  {
    NibblesOf(H(a))
  }

  function SlotKey(H: Hasher, slot: U256): (k: Nibbles)
    ensures |k| == KEY_NIBBLES
  {
    NibblesOf(H(FixedBytes(slot, 32)))
  }

  /** The key of an account is the hash of its address, two nibbles for each byte. */
  lemma {:induction false} AccountKeyIs(H: Hasher, a: Address, i: nat)
    requires i < 32
    ensures AccountKey(H, a)[2 * i] == H(a)[i] / 16 && AccountKey(H, a)[2 * i + 1] == H(a)[i] % 16
  {
    NibblesAt(H(a), i);
  }

  /** The key of a slot is the hash of the one string of 32 bytes that is its number, most significant byte first. */
  lemma {:induction false} SlotKeyIs(H: Hasher, slot: U256, b: Bytes)
    requires |b| == 32 && FromBigEndian(b) == slot
    ensures NibblesOf(H(b)) == SlotKey(H, slot)
  {
    Pow256Of32();
    FixedBytesValue(slot, 32);
    SameValueSameBytes(b, FixedBytes(slot, 32));
  }

  /** The hash function gives different keys to the accounts, and to the slots, in use. */
  ghost predicate AccountKeysDiffer(H: Hasher, addresses: set<Address>) {
    forall a, b :: a in addresses && b in addresses && H(a) == H(b) ==> a == b
  }

  ghost predicate SlotKeysDiffer(H: Hasher, slots: set<U256>) {
    forall x, y :: x in slots && y in slots && H(FixedBytes(x, 32)) == H(FixedBytes(y, 32)) ==> x == y
  }

  lemma {:induction false} SlotKeysAreDistinct(H: Hasher, slots: set<U256>, x: U256, y: U256)
    requires SlotKeysDiffer(H, slots) && x in slots && y in slots && SlotKey(H, x) == SlotKey(H, y)
    ensures x == y
  {
    NibblesOfInjective(H(FixedBytes(x, 32)), H(FixedBytes(y, 32)));
  }

  lemma {:induction false} AccountKeysAreDistinct(H: Hasher, addresses: set<Address>, a: Address, b: Address)
    requires AccountKeysDiffer(H, addresses) && a in addresses && b in addresses
    requires AccountKey(H, a) == AccountKey(H, b)
    ensures a == b
  {
    NibblesOfInjective(H(a), H(b));
  }
}
