/**
 * Value encodings (`TableObjectEncode` / `TableObjectDecode`) and the identity
 * codecs for values that are already bytes: `Vec<u8>` and `Cow<[u8]>`.
 */
module TableCodec {
  import opened Base
  import opened Errors

  /** A value type's `table_encode` and `table_decode`. */
  datatype ValueCodec<!V> = ValueCodec(encode: V -> Result<Bytes, Error>, decode: Bytes -> Result<V, Error>)

  /** Decoding what was encoded gives back the value: the promise every value codec should keep. */
  ghost predicate RoundTrips<V(!new)>(c: ValueCodec<V>)
  {
    forall v :: c.encode(v).Ok? ==> c.decode(c.encode(v).value) == Ok(v)
  }

  /** `Vec<u8>::table_encode`: a clone. */
  function VecTableEncode(v: Bytes): Result<Bytes, Error>
  {
    Ok(v)
  }

  /** `Vec<u8>::table_decode`: `to_vec` of the slice. */
  function VecTableDecode(val: Bytes): Result<Bytes, Error>
  {
    Ok(val)
  }

  /** `Cow<[u8]>`: borrowed or owned bytes. */
  datatype Cow = Borrowed(bytes: Bytes) | Owned(bytes: Bytes)

  /** `Cow<[u8]>::table_encode`: `clone().into_owned()`. */
  function CowTableEncode(c: Cow): Result<Bytes, Error>
  {
    Ok(c.bytes)
  }

  /** `Cow<[u8]>::table_decode`: always `Cow::Owned` of a copy of the slice. */
  function CowTableDecode(val: Bytes): Result<Cow, Error>
  {
    Ok(Owned(val))
  }

  function VecCodec(): ValueCodec<Bytes>
  {
    ValueCodec(VecTableEncode, VecTableDecode)
  }

  /** The identity codec never fails and is its own inverse in both directions. */
  lemma VecCodecIdentity(v: Bytes, val: Bytes)
    ensures VecTableEncode(v) == Ok(v) && VecTableDecode(val) == Ok(val)
    ensures VecTableDecode(VecTableEncode(v).value) == Ok(v)
    ensures VecTableEncode(VecTableDecode(val).value) == Ok(val)
  {
  }

  lemma VecCodecRoundTrips()
    ensures RoundTrips(VecCodec())
  {
  }

  /**
   * `Cow` encodes to its contents whether borrowed or owned, and decodes to an owned
   * copy; a borrowed value therefore comes back owned, with the same bytes.
   */
  lemma CowCodecContents(c: Cow, val: Bytes)
    ensures CowTableEncode(c) == Ok(c.bytes)
    ensures CowTableDecode(val) == Ok(Owned(val))
    ensures CowTableDecode(CowTableEncode(c).value) == Ok(Owned(c.bytes))
  {
  }
}
