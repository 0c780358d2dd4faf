/**
 * Key encodings of the `alloy_primitives` types: the fixed-width unsigned integers
 * `U8 .. U256` (big-endian, exactly `BYTES` long) and the fixed byte strings
 * `Address` (20 bytes) and `B256` (32 bytes), copied verbatim.
 */
module Alloy {
  import opened Base
  import opened Errors
  import KeyCodec

  datatype UintType = U8 | U16 | U24 | U64 | U128 | U160 | U256 {
    /** The `BITS` parameter of `Uint<BITS, LIMBS>`. */
    function Bits(): nat
    {
      match this
      case U8 => 8
      case U16 => 16
      case U24 => 24
      case U64 => 64
      case U128 => 128
      case U160 => 160
      case U256 => 256
    }

    /** `Uint::BYTES`, the number of bytes needed for `BITS` bits. */
    function ByteLen(): nat
    {
      (Bits() + 7) / 8
    }
  }

  /** `KEYSIZE` of a `Uint`: `BYTES`. */
  function UintKeySize(t: UintType): nat
  {
    t.ByteLen()
  }

  /** The values of `Uint<BITS, _>`: 0 <= x < 2^BITS. */
  predicate UintInRange(t: UintType, x: int)
  {
    0 <= x < KeyCodec.Pow256(t.ByteLen())
  }

  /** `key_encode`: `to_be_bytes_vec`, exactly `BYTES` long. */
  function UintKeyEncode(t: UintType, x: int): (r: Result<Bytes, Error>)
    requires UintInRange(t, x)
    ensures r.Ok? && |r.value| == UintKeySize(t)
  {
    Ok(KeyCodec.BeEncode(x, t.ByteLen()))
  }

  /** `key_decode`: `try_into` a `BYTES`-sized array (else `Corrupted`), then `from_be_bytes`. */
  function UintKeyDecode(t: UintType, val: Bytes): (r: Result<int, Error>)
    ensures r.Err? <==> |val| != UintKeySize(t)
    ensures r.Err? ==> r.error == Corrupted
    ensures r.Ok? ==> UintInRange(t, r.value)
  {
    var arr :- KeyCodec.ArrayKeyDecode(t.ByteLen(), val);
    Ok(KeyCodec.BeDecode(arr))
  }

  lemma UintKeyRoundTrip(t: UintType, x: int)
    requires UintInRange(t, x)
    ensures UintKeyDecode(t, UintKeyEncode(t, x).value) == Ok(x)
  {
    KeyCodec.BeDecodeEncode(x, t.ByteLen());
  }

  /** Every `BYTES`-long slice decodes, and re-encoding gives back the slice. */
  lemma UintKeyDecodeEncode(t: UintType, val: Bytes)
    requires |val| == UintKeySize(t)
    ensures UintKeyDecode(t, val).Ok?
    ensures UintKeyEncode(t, UintKeyDecode(t, val).value).value == val
  {
    KeyCodec.BeEncodeDecode(val);
  }

  /** The encoding is big-endian: byte i weighs 256^(BYTES-1-i). */
  lemma UintKeyBigEndian(t: UintType, x: int)
    requires UintInRange(t, x)
    ensures KeyCodec.BeValue(UintKeyEncode(t, x).value) == x
  {
    KeyCodec.BeDecodeIsBeValue(UintKeyEncode(t, x).value);
    KeyCodec.BeDecodeEncode(x, t.ByteLen());
  }

  /** Numeric order is the byte order of the keys. */
  lemma UintKeyOrder(t: UintType, x: int, y: int)
    requires UintInRange(t, x) && UintInRange(t, y)
    ensures x < y <==> KeyCodec.LexLess(UintKeyEncode(t, x).value, UintKeyEncode(t, y).value)
  {
    KeyCodec.BeOrder(x, y, t.ByteLen());
  }

  // ---------------------------------------------------------------------------
  // Address and B256
  // ---------------------------------------------------------------------------

  const ADDRESS_LEN: nat := 20
  const B256_LEN: nat := 32

  /** `Address`, a `FixedBytes<20>`. */
  type Address = b: Bytes | |b| == ADDRESS_LEN
    witness [0, 0, 0, 0, 0, 0, 0, 0, 0, 0, 0, 0, 0, 0, 0, 0, 0, 0, 0, 0]

  /** `B256`, a `FixedBytes<32>`. */
  type B256 = b: Bytes | |b| == B256_LEN
    witness [0, 0, 0, 0, 0, 0, 0, 0, 0, 0, 0, 0, 0, 0, 0, 0, 0, 0, 0, 0, 0, 0, 0, 0, 0, 0, 0, 0, 0, 0, 0, 0]

  /** `KEYSIZE` of `Address`: `size_of::<Address>()`. */
  function AddressKeySize(): nat
  {
    ADDRESS_LEN
  }

  /** `KEYSIZE` of `B256`: `size_of::<B256>()`. */
  function B256KeySize(): nat
  {
    B256_LEN
  }

  /** `Address::key_encode`: the 20 bytes, copied. */
  function AddressKeyEncode(a: Address): Result<Bytes, Error>
  {
    Ok(a)
  }

  /** `Address::key_decode`: `Address::new` of the slice converted to `[u8; 20]`. */
  function AddressKeyDecode(val: Bytes): Result<Address, Error>
  {
    var arr :- KeyCodec.ArrayKeyDecode(ADDRESS_LEN, val);
    Ok(arr)
  }

  /** `B256::key_encode`: the 32 bytes, copied. */
  function B256KeyEncode(b: B256): Result<Bytes, Error>
  {
    Ok(b)
  }

  /** `B256::key_decode`: `B256::new` of the slice converted to `[u8; 32]`. */
  function B256KeyDecode(val: Bytes): Result<B256, Error>
  {
    var arr :- KeyCodec.ArrayKeyDecode(B256_LEN, val);
    Ok(arr)
  }

  lemma AddressKeyCodec(a: Address, val: Bytes)
    ensures AddressKeyEncode(a) == Ok(a) && |AddressKeyEncode(a).value| == AddressKeySize()
    ensures AddressKeyDecode(AddressKeyEncode(a).value) == Ok(a)
    ensures |val| != ADDRESS_LEN ==> AddressKeyDecode(val) == Err(Corrupted)
  {
  }

  lemma B256KeyCodec(b: B256, val: Bytes)
    ensures B256KeyEncode(b) == Ok(b) && |B256KeyEncode(b).value| == B256KeySize()
    ensures B256KeyDecode(B256KeyEncode(b).value) == Ok(b)
    ensures |val| != B256_LEN ==> B256KeyDecode(val) == Err(Corrupted)
  {
  }
}
