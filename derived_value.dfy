/**
 * The value strategies generated by `BcsObject`, `ZstdBcsObject`, `ZstdBincodeObject`
 * and `ZstdJSONObject`: serialize, and for the Zstd variants compress the result at
 * level 1; decoding decompresses, then deserializes. The serializers and the compressor
 * are external: they appear as function values, and their round-trip promise as a
 * predicate that the lemmas assume.
 */
module DerivedValue {
  import opened Base
  import opened Errors
  import opened TableCodec

  /** Which serializer a strategy uses; it decides which error variant wraps its failures. */
  datatype Format = BincodeFormat | BcsFormat | JsonFormat

  /** An external serializer for values of type T (`bincode`, `bcs`, `serde_json`/`simd_json`). */
  datatype Serializer<!T> = Serializer(
    format: Format,
    serialize: T -> Result<Bytes, Cause>,
    deserialize: Bytes -> Result<T, Cause>)

  /** The external compressor: `zstd::encode_all(bytes, level)` and `zstd::decode_all(bytes)`. */
  datatype Compressor = Compressor(
    compress: (Bytes, int) -> Result<Bytes, Cause>,
    decompress: Bytes -> Result<Bytes, Cause>)

  /** The compression level every Zstd strategy passes to `encode_all`. */
  const COMPRESSION_LEVEL: int := 1

  ghost predicate SerializerRoundTrips<T(!new)>(s: Serializer<T>)
  {
    forall v :: s.serialize(v).Ok? ==> s.deserialize(s.serialize(v).value) == Ok(v)
  }

  ghost predicate CompressorRoundTrips(z: Compressor)
  {
    forall b, level :: z.compress(b, level).Ok? ==> z.decompress(z.compress(b, level).value) == Ok(b)
  }

  /** The `From` conversion `?` applies to a serializer's encode error. */
  function SerializeError(f: Format, c: Cause): Error
  {
    match f
    case BincodeFormat => BincodeEncode(c)
    case BcsFormat => Bcs(c)
    case JsonFormat => Json(c)
  }

  /** The `From` conversion `?` applies to a serializer's decode error. */
  function DeserializeError(f: Format, c: Cause): Error
  {
    match f
    case BincodeFormat => BincodeDecode(c)
    case BcsFormat => Bcs(c)
    case JsonFormat => Json(c)
  }

  /** `table_encode` of `BcsObject`: `Ok(to_bytes(self)?)`. */
  function PlainEncode<T>(s: Serializer<T>, v: T): Result<Bytes, Error>
  {
    match s.serialize(v)
    case Ok(bs) => Ok(bs)
    case Err(c) => Err(SerializeError(s.format, c))
  }

  /** `table_decode` of `BcsObject`: `Ok(from_bytes(data)?)`. */
  function PlainDecode<T>(s: Serializer<T>, data: Bytes): Result<T, Error>
  {
    match s.deserialize(data)
    case Ok(v) => Ok(v)
    case Err(c) => Err(DeserializeError(s.format, c))
  }

  /** The engine's `TableObject::decode` of `BcsObject`: any failure becomes `Corrupted`. */
  function PlainEngineDecode<T>(s: Serializer<T>, data: Bytes): Result<T, MdbxError>
  {
    match s.deserialize(data)
    case Ok(v) => Ok(v)
    case Err(_) => Err(MdbxCorrupted)
  }

  /** `table_encode` of the Zstd strategies: serialize (`?`), then compress at level 1, mapping failure to `Zstd`. */
  function ZstdEncode<T>(s: Serializer<T>, z: Compressor, v: T): Result<Bytes, Error>
  {
    var bs :- PlainEncode(s, v);
    match z.compress(bs, COMPRESSION_LEVEL)
    case Ok(compressed) => Ok(compressed)
    case Err(c) => Err(Zstd(c))
  }

  /** `table_decode` of the Zstd strategies: decompress, mapping failure to `Zstd`, then deserialize (`?`). */
  function ZstdDecode<T>(s: Serializer<T>, z: Compressor, data: Bytes): Result<T, Error>
  {
    var decompressed :- match z.decompress(data)
      case Ok(d) => Ok(d)
      case Err(c) => Err(Zstd(c));
    PlainDecode(s, decompressed)
  }

  /** The engine's `TableObject::decode` of the Zstd strategies: both failures become `Corrupted`. */
  function ZstdEngineDecode<T>(s: Serializer<T>, z: Compressor, data: Bytes): Result<T, MdbxError>
  {
    match z.decompress(data)
    case Err(_) => Err(MdbxCorrupted)
    case Ok(decompressed) =>
      match s.deserialize(decompressed)
      case Err(_) => Err(MdbxCorrupted)
      case Ok(v) => Ok(v)
  }

  /** Collapses a typed-layer failure into the engine's `Corrupted`. */
  function ToEngine<T>(r: Result<T, Error>): Result<T, MdbxError>
  {
    match r
    case Ok(v) => Ok(v)
    case Err(_) => Err(MdbxCorrupted)
  }

  function PlainCodec<T>(s: Serializer<T>): ValueCodec<T>
  {
    ValueCodec(v => PlainEncode(s, v), data => PlainDecode(s, data))
  }

  function ZstdCodec<T>(s: Serializer<T>, z: Compressor): ValueCodec<T>
  {
    ValueCodec(v => ZstdEncode(s, z, v), data => ZstdDecode(s, z, data))
  }

  /** Zstd `table_encode` is `compress(serialize(v), 1)`, and each stage's failure has its own variant. */
  lemma ZstdEncodeStages<T>(s: Serializer<T>, z: Compressor, v: T)
    ensures s.serialize(v).Err? ==> ZstdEncode(s, z, v) == Err(SerializeError(s.format, s.serialize(v).error))
    ensures s.serialize(v).Ok? ==>
      ZstdEncode(s, z, v) == match z.compress(s.serialize(v).value, COMPRESSION_LEVEL)
        case Ok(compressed) => Ok(compressed)
        case Err(c) => Err(Zstd(c))
  {
  }

  /** Zstd `table_decode` reports `Zstd` exactly when decompression fails, and the serializer's variant otherwise. */
  lemma ZstdDecodeErrors<T>(s: Serializer<T>, z: Compressor, data: Bytes)
    ensures z.decompress(data).Err? ==> ZstdDecode(s, z, data) == Err(Zstd(z.decompress(data).error))
    ensures z.decompress(data).Ok? && s.deserialize(z.decompress(data).value).Err? ==>
      ZstdDecode(s, z, data) == Err(DeserializeError(s.format, s.deserialize(z.decompress(data).value).error))
    ensures ZstdDecode(s, z, data).Err? ==> (ZstdDecode(s, z, data).error.Zstd? <==> z.decompress(data).Err?)
  {
  }

  lemma PlainRoundTrip<T(!new)>(s: Serializer<T>, v: T)
    requires SerializerRoundTrips(s)
    requires PlainEncode(s, v).Ok?
    ensures PlainDecode(s, PlainEncode(s, v).value) == Ok(v)
  {
  }

  lemma ZstdRoundTrip<T(!new)>(s: Serializer<T>, z: Compressor, v: T)
    requires SerializerRoundTrips(s) && CompressorRoundTrips(z)
    requires ZstdEncode(s, z, v).Ok?
    ensures ZstdDecode(s, z, ZstdEncode(s, z, v).value) == Ok(v)
  {
    var bs := s.serialize(v).value;
    assert z.decompress(z.compress(bs, COMPRESSION_LEVEL).value) == Ok(bs);
  }

  lemma ZstdCodecRoundTrips<T(!new)>(s: Serializer<T>, z: Compressor)
    requires SerializerRoundTrips(s) && CompressorRoundTrips(z)
    ensures RoundTrips(ZstdCodec(s, z))
  {
    forall v | ZstdCodec(s, z).encode(v).Ok?
      ensures ZstdCodec(s, z).decode(ZstdCodec(s, z).encode(v).value) == Ok(v)
    {
      ZstdRoundTrip(s, z, v);
    }
  }

  lemma PlainCodecRoundTrips<T(!new)>(s: Serializer<T>)
    requires SerializerRoundTrips(s)
    ensures RoundTrips(PlainCodec(s))
  {
    forall v | PlainCodec(s).encode(v).Ok?
      ensures PlainCodec(s).decode(PlainCodec(s).encode(v).value) == Ok(v)
    {
      PlainRoundTrip(s, v);
    }
  }

  /** The engine's decode hook agrees with `table_decode` except that every failure reads `Corrupted`. */
  lemma EngineDecodeCollapses<T>(s: Serializer<T>, z: Compressor, data: Bytes)
    ensures ZstdEngineDecode(s, z, data) == ToEngine(ZstdDecode(s, z, data))
    ensures PlainEngineDecode(s, data) == ToEngine(PlainDecode(s, data))
  {
  }
}
