/**
 * Fixed-width key encodings (`KeyObjectEncode` / `KeyObjectDecode`): primitive
 * integers in big-endian order, byte arrays copied verbatim, variable-length
 * byte strings that can only be encoded, and tuples encoded as the concatenation
 * of their members.
 */
module KeyCodec {
  import opened Base
  import opened Errors

  // ---------------------------------------------------------------------------
  // Big-endian arithmetic
  // ---------------------------------------------------------------------------

  /** 256^n, the number of distinct n-byte strings. */
  function Pow256(n: nat): (r: nat)
    ensures r >= 1
  {
    if n == 0 then 1 else 256 * Pow256(n - 1)
  }

  /** `to_be_bytes` at a width of `width` bytes: the last byte is the least significant one. */
  function BeEncode(x: nat, width: nat): (r: Bytes)
    requires x < Pow256(width)
    ensures |r| == width
    decreases width
  {
    if width == 0 then [] else BeEncode(x / 256, width - 1) + [x % 256]
  }

  /** `from_be_bytes`: Horner evaluation, reading the most significant byte first. */
  function BeDecode(s: Bytes): (r: nat)
    ensures r < Pow256(|s|)
  {
    if |s| == 0 then 0 else BeDecode(s[..|s| - 1]) * 256 + s[|s| - 1]
  }

  /** The value a byte string denotes when byte i weighs 256^(|s|-1-i): an independent reading of "big-endian". */
  ghost function BeValue(s: Bytes): nat
  {
    if |s| == 0 then 0 else s[0] * Pow256(|s| - 1) + BeValue(s[1..])
  }

  lemma {:induction false} BeDecodeEncode(x: nat, width: nat)
    requires x < Pow256(width)
    ensures BeDecode(BeEncode(x, width)) == x
    decreases width
  {
    if width > 0 {
      var e := BeEncode(x, width);
      assert e[..|e| - 1] == BeEncode(x / 256, width - 1);
      BeDecodeEncode(x / 256, width - 1);
    }
  }

  lemma {:induction false} BeEncodeDecode(s: Bytes)
    ensures BeEncode(BeDecode(s), |s|) == s
  {
    if |s| > 0 {
      var init := s[..|s| - 1];
      BeEncodeDecode(init);
      assert BeDecode(s) / 256 == BeDecode(init);
      assert s == init + [s[|s| - 1]];
    }
  }

  /** BeValue of a string extended by one byte at the least significant end. */
  lemma {:induction false} BeValueSnoc(s: Bytes, b: uint8)
    ensures BeValue(s + [b]) == BeValue(s) * 256 + b
  {
    if |s| > 0 {
      assert (s + [b])[1..] == s[1..] + [b];
      BeValueSnoc(s[1..], b);
      var p, v := Pow256(|s| - 1), BeValue(s[1..]);
      assert Pow256(|s|) == 256 * p;
      assert BeValue(s + [b]) == s[0] * (256 * p) + (v * 256 + b);
      ShiftByte(s[0], p, v, b);
    }
  }

  lemma ShiftByte(a: int, p: int, v: int, b: int)
    ensures a * (256 * p) + (v * 256 + b) == (a * p + v) * 256 + b
  {
  }

  /** Horner evaluation and the weighted sum agree: `from_be_bytes` reads big-endian. */
  lemma {:induction false} BeDecodeIsBeValue(s: Bytes)
    ensures BeDecode(s) == BeValue(s)
  {
    if |s| > 0 {
      var init := s[..|s| - 1];
      BeDecodeIsBeValue(init);
      assert s == init + [s[|s| - 1]];
      BeValueSnoc(init, s[|s| - 1]);
    }
  }

  // ---------------------------------------------------------------------------
  // Byte-lexicographic order (the engine's default key comparison)
  // ---------------------------------------------------------------------------

  /** a sorts strictly before b when compared byte by byte, a proper prefix sorting first. */
  predicate LexLess(a: Bytes, b: Bytes)
  {
    if |a| == 0 then |b| > 0
    else |b| > 0 && (a[0] < b[0] || (a[0] == b[0] && LexLess(a[1..], b[1..])))
  }

  lemma {:induction false} LexLessSnoc(a: Bytes, b: Bytes, p: uint8, q: uint8)
    requires |a| == |b|
    ensures LexLess(a + [p], b + [q]) <==> LexLess(a, b) || (a == b && p < q)
  {
    if |a| > 0 {
      assert (a + [p])[1..] == a[1..] + [p];
      assert (b + [q])[1..] == b[1..] + [q];
      LexLessSnoc(a[1..], b[1..], p, q);
      assert a == b <==> a[0] == b[0] && a[1..] == b[1..] by {
        if a[0] == b[0] && a[1..] == b[1..] {
          assert a == [a[0]] + a[1..] && b == [b[0]] + b[1..];
        }
      }
    }
  }

  /** At a fixed width, numeric order and byte-lexicographic order of the encodings coincide. */
  lemma {:induction false} BeOrder(x: nat, y: nat, width: nat)
    requires x < Pow256(width) && y < Pow256(width)
    ensures x < y <==> LexLess(BeEncode(x, width), BeEncode(y, width))
    decreases width
  {
    if width > 0 {
      var hx, hy := BeEncode(x / 256, width - 1), BeEncode(y / 256, width - 1);
      BeOrder(x / 256, y / 256, width - 1);
      LexLessSnoc(hx, hy, x % 256, y % 256);
      BeDecodeEncode(x / 256, width - 1);
      BeDecodeEncode(y / 256, width - 1);
      assert hx == hy <==> x / 256 == y / 256;
    }
  }

  // ---------------------------------------------------------------------------
  // Primitive integers: u8 u16 u32 u64 i8 i16 i32 i64 (`impl_ints!`)
  // ---------------------------------------------------------------------------

  datatype IntType = U8 | U16 | U32 | U64 | I8 | I16 | I32 | I64 {
    /** `size_of::<Self>()`, which is the type's default `KEYSIZE`. */
    function Width(): nat
    {
      match this
      case U8 | I8 => 1
      case U16 | I16 => 2
      case U32 | I32 => 4
      case U64 | I64 => 8
    }

    predicate Signed()
    {
      I8? || I16? || I32? || I64?
    }
  }

  /** `KEYSIZE` of an integer type. */
  function IntKeySize(t: IntType): nat
  {
    t.Width()
  }

  /** 2^(8 * width): one more than the largest bit pattern of the type. */
  function Modulus(t: IntType): nat
  {
    Pow256(t.Width())
  }

  /** The values a Rust integer of type t can hold. */
  predicate InRange(t: IntType, x: int)
  {
    if t.Signed() then -(Modulus(t) / 2) <= x < Modulus(t) / 2 else 0 <= x < Modulus(t)
  }

  /** The two's-complement bit pattern of x, read as an unsigned number. */
  function Unsigned(t: IntType, x: int): (u: nat)
    requires InRange(t, x)
    ensures u < Modulus(t)
    ensures !t.Signed() ==> u == x
  {
    if x >= 0 then x else x + Modulus(t)
  }

  /** Reads a bit pattern as a value of type t (two's complement for the signed types). */
  function FromBits(t: IntType, u: nat): (x: int)
    requires u < Modulus(t)
    ensures InRange(t, x)
  {
    ModulusEven(t);
    if t.Signed() && u >= Modulus(t) / 2 then u - Modulus(t) else u
  }

  lemma ModulusEven(t: IntType)
    ensures Modulus(t) % 2 == 0 && Modulus(t) >= 256
  {
    assert Modulus(t) == 256 * Pow256(t.Width() - 1);
  }

  /** `key_encode`: `to_be_bytes` of the value's bit pattern; it never fails. */
  function IntKeyEncode(t: IntType, x: int): (r: Result<Bytes, Error>)
    requires InRange(t, x)
    ensures r.Ok? && |r.value| == IntKeySize(t)
  {
    Ok(BeEncode(Unsigned(t, x), t.Width()))
  }

  /** `key_decode`: `try_into` a width-sized array (else `Corrupted`), then `from_be_bytes`. */
  function IntKeyDecode(t: IntType, val: Bytes): (r: Result<int, Error>)
    ensures r.Err? <==> |val| != IntKeySize(t)
    ensures r.Err? ==> r.error == Corrupted
    ensures r.Ok? ==> InRange(t, r.value)
  {
    if |val| != t.Width() then Err(Corrupted) else Ok(FromBits(t, BeDecode(val)))
  }

  lemma IntKeyRoundTrip(t: IntType, x: int)
    requires InRange(t, x)
    ensures IntKeyDecode(t, IntKeyEncode(t, x).value) == Ok(x)
  {
    BeDecodeEncode(Unsigned(t, x), t.Width());
  }

  /** Every width-sized slice decodes, and re-encoding gives back the slice: the codec is a bijection. */
  lemma IntKeyDecodeEncode(t: IntType, val: Bytes)
    requires |val| == IntKeySize(t)
    ensures IntKeyDecode(t, val).Ok?
    ensures IntKeyEncode(t, IntKeyDecode(t, val).value).value == val
  {
    var u := BeDecode(val);
    var x := FromBits(t, u);
    assert Unsigned(t, x) == u by {
      ModulusEven(t);
    }
    assert IntKeyDecode(t, val) == Ok(x);
    BeEncodeDecode(val);
  }

  /** The encoding is big-endian: byte i of the bit pattern weighs 256^(width-1-i). */
  lemma IntKeyBigEndian(t: IntType, x: int)
    requires InRange(t, x)
    ensures BeValue(IntKeyEncode(t, x).value) == Unsigned(t, x)
  {
    var e := IntKeyEncode(t, x).value;
    BeDecodeIsBeValue(e);
    BeDecodeEncode(Unsigned(t, x), t.Width());
  }

  /** For the unsigned types, numeric order is the byte order of the keys. */
  lemma UnsignedKeyOrder(t: IntType, x: int, y: int)
    requires !t.Signed() && InRange(t, x) && InRange(t, y)
    ensures x < y <==> LexLess(IntKeyEncode(t, x).value, IntKeyEncode(t, y).value)
  {
    BeOrder(x, y, t.Width());
  }

  /** For the signed types the order is not preserved: -1 < 0, yet the key of 0 sorts first. */
  lemma SignedKeyOrderBroken(t: IntType)
    requires t.Signed()
    ensures InRange(t, -1) && InRange(t, 0)
    ensures LexLess(IntKeyEncode(t, 0).value, IntKeyEncode(t, -1).value)
  {
    ModulusEven(t);
    BeOrder(0, Modulus(t) - 1, t.Width());
  }

  // ---------------------------------------------------------------------------
  // [u8; N], &str, &[u8], Vec<u8>
  // ---------------------------------------------------------------------------

  /** `KEYSIZE` of `[u8; N]`. */
  function ArrayKeySize(n: nat): nat
  {
    n
  }

  /** `[u8; N]::key_encode`: `to_vec`. */
  function ArrayKeyEncode(a: Bytes): Result<Bytes, Error>
  {
    Ok(a)
  }

  /** `[u8; N]::key_decode`: `try_into`, mapping a length mismatch to `Corrupted`. */
  function ArrayKeyDecode(n: nat, val: Bytes): (r: Result<Bytes, Error>)
    ensures r.Ok? ==> |r.value| == n
  {
    if |val| == n then Ok(val) else Err(Corrupted)
  }

  lemma ArrayKeyRoundTrip(n: nat, a: Bytes)
    requires |a| == n
    ensures ArrayKeyEncode(a) == Ok(a) && |ArrayKeyEncode(a).value| == ArrayKeySize(n)
    ensures ArrayKeyDecode(n, ArrayKeyEncode(a).value) == Ok(a)
  {
  }

  lemma ArrayKeyWrongLength(n: nat, val: Bytes)
    requires |val| != n
    ensures ArrayKeyDecode(n, val) == Err(Corrupted)
  {
  }

  /**
   * `key_encode` of `&str` (the string's UTF-8 bytes), `&[u8]` and `Vec<u8>`: the bytes
   * themselves. These types have no `key_decode`.
   */
  function VerbatimKeyEncode(b: Bytes): Result<Bytes, Error>
  {
    Ok(b)
  }

  lemma VerbatimKeyEncodeExact(b: Bytes)
    ensures VerbatimKeyEncode(b).Ok? && VerbatimKeyEncode(b).value == b
  {
  }

  // ---------------------------------------------------------------------------
  // Concatenation of member encodings (tuples, and derived struct keys)
  // ---------------------------------------------------------------------------

  function Concat(parts: seq<Bytes>): Bytes
  {
    if |parts| == 0 then [] else parts[0] + Concat(parts[1..])
  }

  /**
   * `key_encode` of a tuple of references (`tuple_impls!`), given the members'
   * `key_encode()` results in order: the first failing member's error is returned,
   * otherwise the concatenation of all encodings.
   */
  function ConcatEncodings(parts: seq<Result<Bytes, Error>>): (r: Result<Bytes, Error>)
    ensures r.Ok? <==> forall i :: 0 <= i < |parts| ==> parts[i].Ok?
    ensures r.Err? ==> exists i :: 0 <= i < |parts| && parts[i] == Err(r.error) && forall j :: 0 <= j < i ==> parts[j].Ok?
  {
    if |parts| == 0 then Ok([])
    else
      var head :- parts[0];
      var tail :- ConcatEncodings(parts[1..]);
      Ok(head + tail)
  }

  lemma {:induction false} ConcatEncodingsOk(parts: seq<Result<Bytes, Error>>, encodings: seq<Bytes>)
    requires |parts| == |encodings|
    requires forall i :: 0 <= i < |parts| ==> parts[i] == Ok(encodings[i])
    ensures ConcatEncodings(parts) == Ok(Concat(encodings))
  {
    if |parts| > 0 {
      ConcatEncodingsOk(parts[1..], encodings[1..]);
    }
  }
}
