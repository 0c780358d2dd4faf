/**
 * The key encoding generated by `#[derive(KeyObject)]` for a struct whose fields all
 * have key encodings. A struct is modelled by the sequence of its fields' codecs in
 * declaration order and a value by the sequence of its field values; named and
 * positional structs generate the same byte layout, so one model covers both.
 */
module DerivedKey {
  import opened Base
  import opened Errors
  import KeyCodec

  /** What the generated code uses of one field's type: `KEYSIZE`, `key_encode` and `key_decode`. */
  datatype FieldCodec<!V> = FieldCodec(keySize: nat, encode: V -> Result<Bytes, Error>, decode: Bytes -> Result<V, Error>)

  /** A field codec whose successful encodings have exactly `KEYSIZE` bytes. */
  ghost predicate FieldSized<V(!new)>(f: FieldCodec<V>)
  {
    forall v :: f.encode(v).Ok? ==> |f.encode(v).value| == f.keySize
  }

  /** A field codec whose encodings have exactly `KEYSIZE` bytes and decode back to the value. */
  ghost predicate FieldRoundTrips<V(!new)>(f: FieldCodec<V>)
  {
    && FieldSized(f)
    && forall v :: f.encode(v).Ok? ==> f.decode(f.encode(v).value) == Ok(v)
  }

  /** The struct's `KEYSIZE`: `0 + K1 + ... + Kn`, summed left to right. */
  function KeySize<V>(fields: seq<FieldCodec<V>>): nat
  {
    if |fields| == 0 then 0 else KeySize(fields[..|fields| - 1]) + fields[|fields| - 1].keySize
  }

  /** Where field i starts: the sum of the sizes of the fields before it. */
  function Offset<V>(fields: seq<FieldCodec<V>>, i: nat): nat
    requires i <= |fields|
  {
    KeySize(fields[..i])
  }

  lemma OffsetStep<V>(fields: seq<FieldCodec<V>>, i: nat)
    requires i < |fields|
    ensures Offset(fields, i + 1) == Offset(fields, i) + fields[i].keySize
  {
    assert fields[..i + 1][..i] == fields[..i];
  }

  lemma {:induction false} OffsetWithin<V>(fields: seq<FieldCodec<V>>, i: nat)
    requires i <= |fields|
    ensures Offset(fields, i) <= KeySize(fields)
    decreases |fields| - i
  {
    if i == |fields| {
      assert fields[..i] == fields;
    } else {
      OffsetStep(fields, i);
      OffsetWithin(fields, i + 1);
    }
  }

  /** The size of a struct made of two field lists is the sum of their sizes. */
  lemma {:induction false} KeySizeAppend<V>(f: seq<FieldCodec<V>>, g: seq<FieldCodec<V>>)
    ensures KeySize(f + g) == KeySize(f) + KeySize(g)
    decreases |g|
  {
    if |g| == 0 {
      assert f + g == f;
    } else {
      assert (f + g)[..|f + g| - 1] == f + g[..|g| - 1];
      KeySizeAppend(f, g[..|g| - 1]);
    }
  }

  /** A byte range `start..end`. */
  datatype Range = Range(start: nat, end: nat)

  /**
   * The generator's scan over the fields: an accumulator starting at 0 yields
   * `acc..acc + K` for each field and then advances by `K`. The ranges tile
   * `0..KEYSIZE` in field order, each as long as its field's `KEYSIZE`.
   */
  method FieldRanges<V>(fields: seq<FieldCodec<V>>) returns (ranges: seq<Range>)
    ensures |ranges| == |fields|
    ensures forall i :: 0 <= i < |fields| ==>
      ranges[i].start == Offset(fields, i) && ranges[i].end == ranges[i].start + fields[i].keySize
    ensures |fields| > 0 ==> ranges[0].start == 0
    ensures forall i :: 0 < i < |fields| ==> ranges[i].start == ranges[i - 1].end
    ensures |fields| > 0 ==> ranges[|fields| - 1].end == KeySize(fields)
  {
    var acc := 0;
    ranges := [];
    for i := 0 to |fields|
      invariant |ranges| == i
      invariant acc == Offset(fields, i)
      invariant forall j :: 0 <= j < i ==> ranges[j] == Range(Offset(fields, j), Offset(fields, j) + fields[j].keySize)
    {
      ranges := ranges + [Range(acc, acc + fields[i].keySize)];
      OffsetStep(fields, i);
      acc := acc + fields[i].keySize;
    }
    forall i | 0 < i < |fields|
      ensures ranges[i].start == ranges[i - 1].end
    {
      OffsetStep(fields, i - 1);
    }
    if |fields| > 0 {
      OffsetStep(fields, |fields| - 1);
      assert fields[..|fields|] == fields;
    }
  }

  /** The bytes of field i inside a key of exactly `KEYSIZE` bytes. */
  function FieldSlice<V>(fields: seq<FieldCodec<V>>, bs: Bytes, i: nat): Bytes
    requires |bs| == KeySize(fields) && i < |fields|
  {
    OffsetStep(fields, i);
    OffsetWithin(fields, i + 1);
    bs[Offset(fields, i)..Offset(fields, i) + fields[i].keySize]
  }

  /** The field encodings in declaration order. */
  function FieldEncodings<V>(fields: seq<FieldCodec<V>>, values: seq<V>): seq<Result<Bytes, Error>>
    requires |values| == |fields|
  {
    seq(|fields|, i requires 0 <= i < |fields| => fields[i].encode(values[i]))
  }

  /** Derived `key_encode`: each field's `key_encode()?` in declaration order, flattened. */
  function Encode<V>(fields: seq<FieldCodec<V>>, values: seq<V>): Result<Bytes, Error>
    requires |values| == |fields|
  {
    KeyCodec.ConcatEncodings(FieldEncodings(fields, values))
  }

  /** Field j, at or after field i, is the first whose decode fails, and fails with e. */
  ghost predicate FirstDecodeFailure<V>(fields: seq<FieldCodec<V>>, bs: Bytes, i: nat, j: int, e: Error)
    requires |bs| == KeySize(fields)
  {
    i <= j < |fields| && fields[j].decode(FieldSlice(fields, bs, j)) == Err(e) &&
    forall k :: i <= k < j ==> fields[k].decode(FieldSlice(fields, bs, k)).Ok?
  }

  /** Field i is the first whose encode fails, and fails with e. */
  ghost predicate FirstEncodeFailure<V>(fields: seq<FieldCodec<V>>, values: seq<V>, i: int, e: Error)
    requires |values| == |fields|
  {
    0 <= i < |fields| && fields[i].encode(values[i]) == Err(e) &&
    forall j :: 0 <= j < i ==> fields[j].encode(values[j]).Ok?
  }

  /** Decodes fields i.. of a key whose length is already known to be `KEYSIZE`, stopping at the first failure. */
  function DecodeFields<V>(fields: seq<FieldCodec<V>>, bs: Bytes, i: nat): (r: Result<seq<V>, Error>)
    requires |bs| == KeySize(fields) && i <= |fields|
    ensures r.Ok? <==> forall j :: i <= j < |fields| ==> fields[j].decode(FieldSlice(fields, bs, j)).Ok?
    ensures r.Ok? ==> |r.value| == |fields| - i
    ensures r.Ok? ==> forall j :: i <= j < |fields| ==> r.value[j - i] == fields[j].decode(FieldSlice(fields, bs, j)).value
    ensures r.Err? ==> exists j :: FirstDecodeFailure(fields, bs, i, j, r.error)
    decreases |fields| - i
  {
    if i == |fields| then Ok([])
    else
      match fields[i].decode(FieldSlice(fields, bs, i))
      case Err(e) =>
        assert FirstDecodeFailure(fields, bs, i, i, e);
        Err(e)
      case Ok(v) =>
        match DecodeFields(fields, bs, i + 1)
        case Err(e) =>
          FirstDecodeFailureSkips(fields, bs, i, i + 1, e);
          Err(e)
        case Ok(rest) => Ok([v] + rest)
  }

  lemma FirstDecodeFailureSkips<V>(fields: seq<FieldCodec<V>>, bs: Bytes, i: nat, next: nat, e: Error)
    requires |bs| == KeySize(fields) && i < |fields|
    requires fields[i].decode(FieldSlice(fields, bs, i)).Ok?
    requires next == i + 1
    requires exists j :: FirstDecodeFailure(fields, bs, next, j, e)
    ensures exists j :: FirstDecodeFailure(fields, bs, i, j, e)
  {
    var j :| FirstDecodeFailure(fields, bs, next, j, e);
    forall k | i <= k < j
      ensures fields[k].decode(FieldSlice(fields, bs, k)).Ok?
    {
      if k != i {
        assert next <= k < j;
      }
    }
    assert FirstDecodeFailure(fields, bs, i, j, e);
  }

  /**
   * Derived `key_decode`: a key whose length is not `KEYSIZE` is rejected with
   * `IncorrectSchema` carrying the input; otherwise each field decodes its own
   * slice in declaration order and the first failure is returned unchanged.
   */
  function Decode<V>(fields: seq<FieldCodec<V>>, val: Bytes): (r: Result<seq<V>, Error>)
    ensures |val| != KeySize(fields) ==> r == Err(IncorrectSchema(val))
    ensures |val| == KeySize(fields) ==>
      (r.Ok? <==> forall j :: 0 <= j < |fields| ==> fields[j].decode(FieldSlice(fields, val, j)).Ok?)
    ensures r.Ok? ==> |val| == KeySize(fields) && |r.value| == |fields|
    ensures r.Ok? ==> forall j :: 0 <= j < |fields| ==> r.value[j] == fields[j].decode(FieldSlice(fields, val, j)).value
    ensures r.Err? && |val| == KeySize(fields) ==> exists j :: FirstDecodeFailure(fields, val, 0, j, r.error)
  {
    if |val| != KeySize(fields) then Err(IncorrectSchema(val)) else DecodeFields(fields, val, 0)
  }

  /** The engine's `TableObject::decode` for a derived key: any failure becomes `Corrupted`. */
  function EngineDecode<V>(fields: seq<FieldCodec<V>>, val: Bytes): (r: Result<seq<V>, MdbxError>)
    ensures r.Err? <==> Decode(fields, val).Err?
    ensures r.Err? ==> r.error == MdbxCorrupted
    ensures r.Ok? ==> r.value == Decode(fields, val).value
  {
    match Decode(fields, val)
    case Ok(vs) => Ok(vs)
    case Err(_) => Err(MdbxCorrupted)
  }

  /** Encoding succeeds exactly when every field does, and is then the concatenation of their encodings in order. */
  lemma EncodeIsConcatenation<V>(fields: seq<FieldCodec<V>>, values: seq<V>, encodings: seq<Bytes>)
    requires |values| == |fields| && |encodings| == |fields|
    requires forall i :: 0 <= i < |fields| ==> fields[i].encode(values[i]) == Ok(encodings[i])
    ensures Encode(fields, values) == Ok(KeyCodec.Concat(encodings))
  {
    KeyCodec.ConcatEncodingsOk(FieldEncodings(fields, values), encodings);
  }

  /** A failing field makes the whole encoding fail with the first failing field's error. */
  lemma EncodeFirstError<V>(fields: seq<FieldCodec<V>>, values: seq<V>)
    requires |values| == |fields|
    ensures Encode(fields, values).Err? <==> exists i :: 0 <= i < |fields| && fields[i].encode(values[i]).Err?
    ensures Encode(fields, values).Err? ==> exists i :: FirstEncodeFailure(fields, values, i, Encode(fields, values).error)
  {
    var parts := FieldEncodings(fields, values);
    if Encode(fields, values).Err? {
      var i :| 0 <= i < |parts| && parts[i] == Err(Encode(fields, values).error) && forall j :: 0 <= j < i ==> parts[j].Ok?;
      forall j | 0 <= j <= i
        ensures fields[j].encode(values[j]) == parts[j]
      {
      }
      assert FirstEncodeFailure(fields, values, i, Encode(fields, values).error);
    } else {
      forall i | 0 <= i < |fields|
        ensures fields[i].encode(values[i]).Ok?
      {
        assert parts[i] == fields[i].encode(values[i]);
      }
    }
  }

  lemma {:induction false} ConcatSnoc(parts: seq<Bytes>)
    requires |parts| > 0
    ensures KeyCodec.Concat(parts) == KeyCodec.Concat(parts[..|parts| - 1]) + parts[|parts| - 1]
  {
    if |parts| == 1 {
      assert parts[..0] == [];
      assert KeyCodec.Concat(parts) == parts[0] + KeyCodec.Concat(parts[1..]);
      assert parts[1..] == [];
    } else {
      ConcatSnoc(parts[1..]);
      assert parts[1..][..|parts[1..]| - 1] == parts[..|parts| - 1][1..];
    }
  }

  /** A range inside a prefix `a` of `whole` cuts out the same bytes from both. */
  lemma SubSliceOfPrefix(whole: Bytes, a: Bytes, lo: nat, hi: nat)
    requires lo <= hi <= |a| <= |whole| && whole[..|a|] == a
    ensures whole[lo..hi] == a[lo..hi]
  {
    forall k | 0 <= k < hi - lo
      ensures whole[lo..hi][k] == a[lo..hi][k]
    {
      assert a[lo + k] == whole[..|a|][lo + k];
    }
  }

  /** A field before the last one is cut from the same place in the bytes of the fields before the last. */
  lemma SliceInPrefix<V>(fields: seq<FieldCodec<V>>, whole: Bytes, a: Bytes, i: nat)
    requires i + 1 < |fields|
    requires |a| == KeySize(fields[..|fields| - 1]) && |whole| == KeySize(fields)
    requires |a| <= |whole| && whole[..|a|] == a
    ensures FieldSlice(fields, whole, i) == FieldSlice(fields[..|fields| - 1], a, i)
  {
    var fs := fields[..|fields| - 1];
    assert fields[..i] == fs[..i];
    assert Offset(fields, i) == Offset(fs, i);
    assert fs[i] == fields[i];
    OffsetStep(fs, i);
    OffsetWithin(fs, i + 1);
    var lo := Offset(fs, i);
    var hi := lo + fs[i].keySize;
    assert FieldSlice(fs, a, i) == a[lo..hi];
    assert FieldSlice(fields, whole, i) == whole[lo..hi];
    SubSliceOfPrefix(whole, a, lo, hi);
  }

  /** Field-sized encodings laid end to end put field i's bytes exactly at field i's range. */
  lemma {:induction false} ConcatSlices<V>(fields: seq<FieldCodec<V>>, encodings: seq<Bytes>)
    requires |encodings| == |fields|
    requires forall i :: 0 <= i < |fields| ==> |encodings[i]| == fields[i].keySize
    ensures |KeyCodec.Concat(encodings)| == KeySize(fields)
    ensures forall i :: 0 <= i < |fields| ==> FieldSlice(fields, KeyCodec.Concat(encodings), i) == encodings[i]
  {
    var n := |fields|;
    if n > 0 {
      var fs, es := fields[..n - 1], encodings[..n - 1];
      ConcatSlices(fs, es);
      ConcatSnoc(encodings);
      var a := KeyCodec.Concat(es);
      var whole := KeyCodec.Concat(encodings);
      assert whole == a + encodings[n - 1];
      forall i | 0 <= i < n
        ensures FieldSlice(fields, whole, i) == encodings[i]
      {
        if i < n - 1 {
          SliceInPrefix(fields, whole, a, i);
          assert FieldSlice(fs, a, i) == encodings[i];
        } else {
          assert fields[..i] == fs;
        }
      }
    }
  }

  /** Derived `key_encode` produces exactly `KEYSIZE` bytes, field i's encoding sitting at field i's range. */
  lemma EncodeLayout<V(!new)>(fields: seq<FieldCodec<V>>, values: seq<V>)
    requires |values| == |fields|
    requires forall i :: 0 <= i < |fields| ==> FieldSized(fields[i])
    requires Encode(fields, values).Ok?
    ensures |Encode(fields, values).value| == KeySize(fields)
    ensures forall i :: 0 <= i < |fields| ==> fields[i].encode(values[i]).Ok?
    ensures forall i :: 0 <= i < |fields| ==>
      FieldSlice(fields, Encode(fields, values).value, i) == fields[i].encode(values[i]).value
  {
    EncodeFirstError(fields, values);
    var encodings := seq(|fields|, i requires 0 <= i < |fields| => fields[i].encode(values[i]).value);
    EncodeIsConcatenation(fields, values, encodings);
    ConcatSlices(fields, encodings);
  }

  /** Derived `key_decode` inverts derived `key_encode` whenever every field's codec round-trips. */
  lemma RoundTrip<V(!new)>(fields: seq<FieldCodec<V>>, values: seq<V>)
    requires |values| == |fields|
    requires forall i :: 0 <= i < |fields| ==> FieldRoundTrips(fields[i])
    requires Encode(fields, values).Ok?
    ensures Decode(fields, Encode(fields, values).value) == Ok(values)
  {
    EncodeFirstError(fields, values);
    forall i | 0 <= i < |fields|
      ensures FieldSized(fields[i])
    {
      assert FieldRoundTrips(fields[i]);
    }
    EncodeLayout(fields, values);
    var bs := Encode(fields, values).value;
    forall j | 0 <= j < |fields|
      ensures fields[j].decode(FieldSlice(fields, bs, j)) == Ok(values[j])
    {
      assert FieldRoundTrips(fields[j]);
    }
    var r := Decode(fields, bs);
    assert r.Ok?;
    assert r.value == values;
  }

  /** An unsigned 64-bit integer, the field type of the sample key. */
  newtype u64 = x: int | 0 <= x < 0x1_0000_0000_0000_0000

  lemma U64Modulus()
    ensures KeyCodec.Modulus(KeyCodec.U64) == 0x1_0000_0000_0000_0000
  {
    assert KeyCodec.Modulus(KeyCodec.U64) == KeyCodec.Pow256(8);
  }

  function EncodeU64(x: u64): Result<Bytes, Error>
  {
    U64Modulus();
    KeyCodec.IntKeyEncode(KeyCodec.U64, x as int)
  }

  function DecodeU64(val: Bytes): Result<u64, Error>
  {
    U64Modulus();
    var x :- KeyCodec.IntKeyDecode(KeyCodec.U64, val);
    Ok(x as u64)
  }

  /** The key codec of `u64`: 8 big-endian bytes. */
  function U64Field(): FieldCodec<u64>
  {
    FieldCodec(KeyCodec.IntKeySize(KeyCodec.U64), EncodeU64, DecodeU64)
  }

  lemma U64FieldRoundTrips()
    ensures FieldRoundTrips(U64Field())
  {
    forall v: u64 | U64Field().encode(v).Ok?
      ensures |U64Field().encode(v).value| == U64Field().keySize
      ensures U64Field().decode(U64Field().encode(v).value) == Ok(v)
    {
      U64Modulus();
      KeyCodec.IntKeyRoundTrip(KeyCodec.U64, v as int);
    }
  }

  lemma {:induction false} BeEncodeZero(width: nat)
    ensures KeyCodec.BeEncode(0, width) == seq(width, _ => 0)
  {
    if width > 0 {
      BeEncodeZero(width - 1);
    }
  }

  /** A `u64` below 256 encodes to seven zero bytes and then itself. */
  lemma EncodeSmallU64(x: u64)
    requires x < 256
    ensures EncodeU64(x) == Ok([0, 0, 0, 0, 0, 0, 0, x as uint8])
  {
    U64Modulus();
    BeEncodeZero(7);
    assert KeyCodec.IntType.U64.Width() == 8 && KeyCodec.Unsigned(KeyCodec.U64, x as int) == x as int;
    assert KeyCodec.BeEncode(x as int, 8) == KeyCodec.BeEncode(0, 7) + [x as uint8];
    assert seq(7, _ => 0) + [x as uint8] == [0, 0, 0, 0, 0, 0, 0, x as uint8];
  }

  /** The sample key type `{ a: u64, b: u64 }`. */
  function TrivialKeyFields(): seq<FieldCodec<u64>>
  {
    [U64Field(), U64Field()]
  }

  /** The big-endian bytes of 42 followed by those of 24. */
  const TRIVIAL_KEY_BYTES: Bytes := [0, 0, 0, 0, 0, 0, 0, 42, 0, 0, 0, 0, 0, 0, 0, 24]

  /**
   * The sample key holding `a = 42, b = 24`: it has a 16-byte `KEYSIZE`, encodes
   * to the big-endian bytes of 42 followed by those of 24, and decodes back to
   * the same fields.
   */
  lemma TrivialKeyScenario()
    ensures KeySize(TrivialKeyFields()) == 16
    ensures Encode(TrivialKeyFields(), [42, 24]) == Ok(TRIVIAL_KEY_BYTES)
    ensures Decode(TrivialKeyFields(), TRIVIAL_KEY_BYTES) == Ok([42, 24])
  {
    TrivialKeyEncoding();
    U64FieldRoundTrips();
    RoundTrip(TrivialKeyFields(), [42, 24]);
  }

  lemma TrivialKeyEncoding()
    ensures KeySize(TrivialKeyFields()) == 16
    ensures Encode(TrivialKeyFields(), [42, 24]) == Ok(TRIVIAL_KEY_BYTES)
  {
    var fields := TrivialKeyFields();
    var values: seq<u64> := [42, 24];
    assert fields[..1] == [U64Field()] && fields[..2] == fields && [U64Field()][..0] == [];
    var e42: Bytes, e24: Bytes := [0, 0, 0, 0, 0, 0, 0, 42], [0, 0, 0, 0, 0, 0, 0, 24];
    EncodeSmallU64(42);
    EncodeSmallU64(24);
    EncodeIsConcatenation(fields, values, [e42, e24]);
    var both: seq<Bytes>, last: seq<Bytes>, none: seq<Bytes> := [e42, e24], [e24], [];
    assert both[1..] == last && last[1..] == none;
    assert KeyCodec.Concat(both) == e42 + KeyCodec.Concat(last);
    assert KeyCodec.Concat(last) == e24 + KeyCodec.Concat(none);
    assert KeyCodec.Concat(none) == [];
    assert e42 + e24 == [0, 0, 0, 0, 0, 0, 0, 42, 0, 0, 0, 0, 0, 0, 0, 24];
    assert Encode(fields, values) == Ok(KeyCodec.Concat(both));
    assert KeyCodec.Concat(both) == e42 + e24;
  }
}
