# mdbx-derive: the typed-schema layer, modelled in Dafny

mdbx-derive sits on top of a transactional key/value engine (libmdbx, reached through
`libmdbx_remote`). It lets a program declare tables that have a typed key and a typed value.
It also derives the byte codecs those tables need. This project models that layer and proves
properties about it:

- **Fixed-width key codecs** (`KeyCodec`, `Alloy`):
  - Primitive integers `u8..u64` and `i8..i64` are big-endian. Signed ones are two's complement.
  - The alloy `U8..U256` unsigned types are big-endian.
  - `[u8; N]`, `Address` and `B256` are verbatim byte copies.
  - `&str`, `&[u8]` and `Vec<u8>` encode verbatim.
  - A tuple of references encodes as the concatenation of its members.
- **Derived composite keys** (`DerivedKey`) model the code the `KeyObject` derive generates:
  - `KEYSIZE` is the sum of the field sizes.
  - Encode concatenates the field encodings in declaration order.
  - Decode checks the total length first (`IncorrectSchema`). It then cuts the slices with a running offset and decodes each one.
  - A struct is modelled as the sequence of its field values, with one field codec per position.
- **Value codecs**:
  - `TableCodec` holds the identity codecs for `Vec<u8>` and `Cow<[u8]>`.
  - `DerivedValue` holds the `BcsObject`, `ZstdBcsObject`, `ZstdBincodeObject` and `ZstdJSONObject` strategies: serialize, then compress at level 1. Decoding undoes the two steps in reverse order.
  - Serializers and the compressor are function-valued parameters. Their round-trip properties are stated as predicates and taken as preconditions.
- **The table registry** (`Registry`):
  - `MatchName` is a first-match search on type tag and `NAME`.
  - `MDBXTables::create_all` builds the name→dbi map. The MDBXDatabase wrapper around it is modelled too.
  - `dbi::<T>()` is a lookup in that map.
  - The nested pair list becomes a `seq` of table descriptors. Each descriptor has a type tag, a `NAME` and a DUPSORT flag.
- **Typed reads and writes** (`Orm`, `DbiStruct`):
  - `open_table`, `create_table`, `get_item` and `put_item`, each in its `_tx` and its environment form.
  - `write_metadata` and `metadata`, with and without a transaction argument.
  - The `new`, `new_ro`, `read_*_tx` and `write_*_tx` code that `generate_dbi_struct` emits.

The engine itself is not modelled. `Store` is a small stand-in with pure operations:
- a name→dbi map, per-dbi flags and a per-dbi `map<Bytes, Bytes>`;
- `open_db`, `create_db`, `get` and `put`.

`Engine` wraps that stand-in in two classes. `Env` holds the committed state. `Txn` holds the
working copy of one transaction: `commit` publishes it, and a transaction that is dropped
without a commit is simply discarded. The error set is `Errors.Error`: the variants of
`MDBXDeriveError`, plus `IncorrectSchema` and `Bcs`. Engine failures are wrapped in `Mdbx`.

Each state-changing operation comes in two forms:
- a pure function over the state (`...In`, `...Env`);
- a method over `Txn`/`Env` (`...Tx` and the environment forms), proved equal to that function.

The theorems are lemmas about the functions.

Two's-complement big-endian encoding does not preserve the order of signed integers, so
order preservation is proved for unsigned types only (`KeyCodec.UnsignedKeyOrder`,
`Alloy.UintKeyOrder`). `KeyCodec.SignedKeyOrderBroken` exhibits the failure for signed types.

## Model

| member | source | states |
|---|---|---|
| KeyCodec.BeEncode | crates/mdbx-derive-traits/src/key.rs:50 | the big-endian image of a value below 256^width is exactly `width` bytes |
| KeyCodec.BeDecodeEncode | crates/mdbx-derive-traits/src/key.rs:56 | reading `width` big-endian bytes back gives the encoded number |
| KeyCodec.BeEncodeDecode | crates/mdbx-derive-traits/src/key.rs:56 | every byte string is the encoding of its own big-endian reading, so decoding loses nothing |
| KeyCodec.BeDecodeIsBeValue | crates/mdbx-derive-traits/src/key.rs:50 | the decoder agrees with the positional most-significant-byte-first value of the bytes |
| KeyCodec.BeOrder | crates/mdbx-derive-traits/src/key.rs:50 | for a fixed width, x < y exactly when the encoding of x is lexicographically smaller than that of y |
| KeyCodec.Unsigned | crates/mdbx-derive-traits/src/key.rs:50 | the two's-complement bit pattern of an in-range value is below 2^bits, and is the value itself for unsigned types |
| KeyCodec.FromBits | crates/mdbx-derive-traits/src/key.rs:56 | reinterpreting a bit pattern yields a value in the type's range |
| KeyCodec.IntKeyEncode | crates/mdbx-derive-traits/src/key.rs:49-51 | integer `key_encode` never fails and yields exactly `size_of` bytes |
| KeyCodec.IntKeyDecode | crates/mdbx-derive-traits/src/key.rs:54-57 | integer `key_decode` fails exactly when the length differs from the width, always with `Corrupted`, and otherwise yields an in-range value |
| KeyCodec.IntKeyRoundTrip | crates/mdbx-derive-traits/src/key.rs:49-57 | decode(encode(x)) == Ok(x) for every value of u8..u64 and i8..i64 |
| KeyCodec.IntKeyDecodeEncode | crates/mdbx-derive-traits/src/key.rs:54-57 | every slice of the right width decodes, and re-encoding gives back the same bytes |
| KeyCodec.IntKeyBigEndian | crates/mdbx-derive-traits/src/key.rs:50 | the encoding read most-significant-byte first is the value's two's-complement bit pattern |
| KeyCodec.UnsignedKeyOrder | crates/mdbx-derive-traits/src/key.rs:63 | for u8..u64, a < b iff key_encode(a) is lexicographically below key_encode(b) |
| KeyCodec.SignedKeyOrderBroken | crates/mdbx-derive-traits/src/key.rs:63 | for every signed type, 0 encodes lexicographically below -1, so byte order is not numeric order |
| KeyCodec.ArrayKeyDecode | crates/mdbx-derive-traits/src/key.rs:38-42 | a successful `[u8; N]` decode has exactly N bytes |
| KeyCodec.ArrayKeyRoundTrip | crates/mdbx-derive-traits/src/key.rs:32-43 | `[u8; N]` has KEYSIZE N, encodes as a verbatim copy, and decodes an N-byte slice to the same bytes |
| KeyCodec.ArrayKeyWrongLength | crates/mdbx-derive-traits/src/key.rs:41 | a slice whose length is not N decodes to `Corrupted` |
| KeyCodec.ArrayKeyEncode | crates/mdbx-derive-traits/src/key.rs:32-36 | the `[u8; N]` encode: a verbatim copy that never fails (stated by `KeyCodec.ArrayKeyRoundTrip`) |
| KeyCodec.VerbatimKeyEncode | crates/mdbx-derive-traits/src/key.rs:14-30 | the `&str`, `&[u8]` and `Vec<u8>` encode: the bytes themselves, never an error (stated by `KeyCodec.VerbatimKeyEncodeExact`) |
| KeyCodec.VerbatimKeyEncodeExact | crates/mdbx-derive-traits/src/key.rs:14-30 | `&str`, `&[u8]` and `Vec<u8>` encode to exactly their bytes and never fail |
| KeyCodec.ConcatEncodings | crates/mdbx-derive-traits/src/key.rs:67-72 | a tuple encode succeeds iff every member encode succeeds; on failure it returns the first member's error |
| KeyCodec.ConcatEncodingsOk | crates/mdbx-derive-traits/src/key.rs:71 | when every member succeeds, the tuple encoding is their in-order concatenation |
| KeyCodec.Concat | crates/mdbx-derive-traits/src/key.rs:71 | the in-order concatenation of the member encodings that `chain(...).collect()` builds (used by `KeyCodec.ConcatEncodingsOk` and `DerivedKey.EncodeIsConcatenation`) |
| Alloy.UintKeyEncode | crates/mdbx-derive-traits/src/alloy.rs:38-43 | `to_be_bytes_vec` of U8..U256 never fails and is exactly `BYTES` long (KEYSIZE == BYTES) |
| Alloy.UintKeyDecode | crates/mdbx-derive-traits/src/alloy.rs:44-49 | decode fails iff the length differs from `BYTES`, always with `Corrupted`, and otherwise yields an in-range value |
| Alloy.UintKeyRoundTrip | crates/mdbx-derive-traits/src/alloy.rs:35-54 | decode(encode(x)) == Ok(x) for each of U8, U16, U24, U64, U128, U160, U256 |
| Alloy.UintKeyDecodeEncode | crates/mdbx-derive-traits/src/alloy.rs:46-48 | every `BYTES`-long slice decodes, and re-encoding it gives the same bytes |
| Alloy.UintKeyBigEndian | crates/mdbx-derive-traits/src/alloy.rs:41 | the encoding read most-significant-byte first is the number |
| Alloy.UintKeyOrder | crates/mdbx-derive-traits/src/alloy.rs:41 | numeric order equals lexicographic order of the encodings |
| Alloy.AddressKeyCodec | crates/mdbx-derive-traits/src/alloy.rs:7-19 | an Address encodes to its 20 bytes, decodes back to itself, and a slice of any other length is `Corrupted` |
| Alloy.B256KeyCodec | crates/mdbx-derive-traits/src/alloy.rs:21-33 | a B256 encodes to its 32 bytes, decodes back to itself, and a slice of any other length is `Corrupted` |
| Alloy.AddressKeyEncode | crates/mdbx-derive-traits/src/alloy.rs:7-11 | the 20 bytes of the address, never an error (stated by `Alloy.AddressKeyCodec`) |
| Alloy.AddressKeyDecode | crates/mdbx-derive-traits/src/alloy.rs:13-19 | the address whose bytes are the slice when it is 20 long, `Corrupted` otherwise (stated by `Alloy.AddressKeyCodec`) |
| Alloy.B256KeyEncode | crates/mdbx-derive-traits/src/alloy.rs:21-25 | the 32 bytes of the hash, never an error (stated by `Alloy.B256KeyCodec`) |
| Alloy.B256KeyDecode | crates/mdbx-derive-traits/src/alloy.rs:27-33 | the hash whose bytes are the slice when it is 32 long, `Corrupted` otherwise (stated by `Alloy.B256KeyCodec`) |
| TableCodec.VecCodecIdentity | crates/mdbx-derive-traits/src/table.rs:13-23 | `Vec<u8>` encode and decode return a copy of their input, never fail, and round-trip in both directions |
| TableCodec.VecCodecRoundTrips | crates/mdbx-derive-traits/src/table.rs:13-23 | the `Vec<u8>` codec meets the round-trip requirement the typed get/put lemmas rely on |
| TableCodec.CowCodecContents | crates/mdbx-derive-traits/src/table.rs:25-35 | `Cow` encode gives the bytes of either variant; decode always gives `Owned` with the same bytes |
| TableCodec.VecTableEncode | crates/mdbx-derive-traits/src/table.rs:13-17 | a copy of the vector, never an error (stated by `TableCodec.VecCodecIdentity`) |
| TableCodec.VecTableDecode | crates/mdbx-derive-traits/src/table.rs:19-23 | a copy of the stored bytes, never an error (stated by `TableCodec.VecCodecIdentity`) |
| TableCodec.CowTableEncode | crates/mdbx-derive-traits/src/table.rs:25-29 | the bytes of a borrowed or owned `Cow` (stated by `TableCodec.CowCodecContents`) |
| TableCodec.CowTableDecode | crates/mdbx-derive-traits/src/table.rs:31-35 | an `Owned` copy of the stored bytes (stated by `TableCodec.CowCodecContents`) |
| DerivedValue.ZstdEncodeStages | crates/mdbx-derive-macros/src/lib.rs:265-273 | Zstd `table_encode` is serialize then compress at level 1; a serializer failure gives the format's encode error, a compressor failure gives `Zstd` |
| DerivedValue.ZstdDecodeErrors | crates/mdbx-derive-macros/src/lib.rs:245-253 | Zstd `table_decode` yields `Zstd` exactly when decompression fails, and the format's decode error when deserialization fails |
| DerivedValue.PlainRoundTrip | crates/mdbx-derive-macros/src/lib.rs:178-202 | `BcsObject` decode inverts encode for a serializer that round-trips |
| DerivedValue.ZstdRoundTrip | crates/mdbx-derive-macros/src/lib.rs:240-277 | Zstd decode inverts Zstd encode when the serializer and the compressor round-trip |
| DerivedValue.ZstdCodecRoundTrips | crates/mdbx-derive-macros/src/lib.rs:204-238 | a Zstd strategy is a value codec that round-trips, so it can be used as a table's value type |
| DerivedValue.PlainCodecRoundTrips | crates/mdbx-derive-macros/src/lib.rs:183-199 | the plain serializer strategy is a value codec that round-trips |
| DerivedValue.EngineDecodeCollapses | crates/mdbx-derive-macros/src/lib.rs:255-262 | the engine-facing `TableObject::decode` succeeds exactly when `table_decode` does, with the same value, and turns every failure into `Corrupted` |
| DerivedValue.PlainEncode | crates/mdbx-derive-macros/src/lib.rs:195-199 | `BcsObject` `table_encode`: the serializer output, or its error converted for the format (`Bcs` for bcs) (inverted by `PlainDecode`, stated by `DerivedValue.PlainRoundTrip`) |
| DerivedValue.PlainDecode | crates/mdbx-derive-macros/src/lib.rs:183-187 | `BcsObject` `table_decode`: the deserialized value, or its error converted for the format (stated by `DerivedValue.PlainRoundTrip`) |
| DerivedValue.PlainEngineDecode | crates/mdbx-derive-macros/src/lib.rs:189-193 | `BcsObject` `TableObject::decode`: `table_decode` with failures as `Corrupted` (stated by `DerivedValue.EngineDecodeCollapses`) |
| DerivedValue.ZstdEncode | crates/mdbx-derive-macros/src/lib.rs:265-274 | Zstd `table_encode`: serialize, then compress at level 1 (stated by `DerivedValue.ZstdEncodeStages` and `DerivedValue.ZstdRoundTrip`) |
| DerivedValue.ZstdDecode | crates/mdbx-derive-macros/src/lib.rs:245-253 | Zstd `table_decode`: decompress, then deserialize (stated by `DerivedValue.ZstdDecodeErrors` and `DerivedValue.ZstdRoundTrip`) |
| DerivedValue.ZstdEngineDecode | crates/mdbx-derive-macros/src/lib.rs:255-263 | Zstd `TableObject::decode`: both stages, with every failure as `Corrupted` (stated by `DerivedValue.EngineDecodeCollapses`) |
| DerivedKey.OffsetStep | crates/mdbx-derive-macros/src/lib.rs:86-94 | each field's offset is the previous offset plus the previous field's KEYSIZE |
| DerivedKey.OffsetWithin | crates/mdbx-derive-macros/src/lib.rs:84-95 | every running offset lies within KEYSIZE |
| DerivedKey.FieldSlice | crates/mdbx-derive-macros/src/lib.rs:84-95 | the `bs[acc..acc + KEYSIZE]` slice of field i (stated by `DerivedKey.FieldRanges` and `DerivedKey.ConcatSlices`) |
| DerivedKey.KeySizeAppend | crates/mdbx-derive-macros/src/lib.rs:151-169 | `0 + Σ KEYSIZE_i` is additive over field lists, and an empty list gives 0 |
| DerivedKey.FieldRanges | crates/mdbx-derive-macros/src/lib.rs:84-95 | the scan yields one range per field: the first starts at 0, each has length KEYSIZE_i, each starts where the previous ends, and the last ends at KEYSIZE |
| DerivedKey.DecodeFields | crates/mdbx-derive-macros/src/lib.rs:113-119 | decoding the fields succeeds iff every slice decodes, giving the decoded slices in order; otherwise it returns the first failing field's error unchanged |
| DerivedKey.Decode | crates/mdbx-derive-macros/src/lib.rs:117-137 | a length other than KEYSIZE gives `IncorrectSchema` carrying exactly the input; otherwise the result is the field-by-field decode, or the first field error with no partial struct |
| DerivedKey.EngineDecode | crates/mdbx-derive-macros/src/lib.rs:58-62 | `TableObject::decode` of a key agrees with `key_decode` on success and reports every failure as `Corrupted` |
| DerivedKey.EncodeIsConcatenation | crates/mdbx-derive-macros/src/lib.rs:20-42 | a derived `key_encode` is the concatenation of the field encodings in declaration order |
| DerivedKey.EncodeFirstError | crates/mdbx-derive-macros/src/lib.rs:22-29 | a derived encode fails iff some field's encode fails, and then returns the first such field's error |
| DerivedKey.Encode | crates/mdbx-derive-macros/src/lib.rs:20-42 | the derived `key_encode` (stated by `DerivedKey.EncodeIsConcatenation`, `DerivedKey.EncodeFirstError` and `DerivedKey.EncodeLayout`) |
| DerivedKey.ConcatSlices | crates/mdbx-derive-macros/src/lib.rs:84-95 | when each part has its field's KEYSIZE, the concatenation is KEYSIZE long and range i cuts out exactly part i |
| DerivedKey.EncodeLayout | crates/mdbx-derive-macros/src/lib.rs:113-137 | a successful derived encode is KEYSIZE long and range i holds field i's encoding |
| DerivedKey.RoundTrip | crates/mdbx-derive-macros/src/lib.rs:113-137 | decode(encode(k)) == k whenever every field codec round-trips at its KEYSIZE |
| DerivedKey.U64FieldRoundTrips | crates/mdbx-derive-traits/src/key.rs:49-57 | a u64 field is an 8-byte field codec that round-trips |
| DerivedKey.TrivialKeyScenario | crates/mdbx-derive-tests/src/lib.rs:35-44 | `TrivialKey { a: 42, b: 24 }` has KEYSIZE 16, encodes to its 16 big-endian bytes and decodes back to 42 and 24 |
| DerivedKey.TrivialKeyEncoding | crates/mdbx-derive-tests/src/lib.rs:36-39 | the same key's KEYSIZE is 16 and its encoding is the 16 expected bytes |
| Store.OpenDb | crates/mdbx-derive-traits/src/orm.rs:96-97 | `open_db` succeeds iff the name exists, with its handle; otherwise it returns `NotFound` |
| Store.Get | crates/mdbx-derive-traits/src/orm.rs:151-153 | `get` on an unknown handle is `BadDbi`; otherwise it gives the stored value, or `None` when the key is absent |
| Store.CreateDbSpec | crates/mdbx-derive-traits/src/orm.rs:115-116 | `create_db` keeps the state well formed and reopens an existing name with equal flags without change. Other flags give `Incompatible`. A new name gets a fresh empty table with the given flags. No existing name or table changes |
| Store.CreateDbIdempotent | crates/mdbx-derive-traits/src/orm.rs:115 | repeating a successful `create_db` returns the same handle and changes nothing |
| Store.CreateDb | crates/mdbx-derive-traits/src/orm.rs:115 | the stand-in `create_db` (stated by `Store.CreateDbSpec` and `Store.CreateDbIdempotent`) |
| Store.PutSpec | crates/mdbx-derive-traits/src/orm.rs:186-187 | `put` fails iff the handle is unknown; otherwise the key reads back as the value and names, flags and tables keep their domains |
| Store.Put | crates/mdbx-derive-traits/src/orm.rs:186-187 | the stand-in `put` (stated by `Store.PutSpec`) |
| Engine.Txn.OpenDb | crates/mdbx-derive-traits/src/orm.rs:96 | the transaction's `open_db` answers from its working copy |
| Engine.Txn.CreateDb | crates/mdbx-derive-traits/src/orm.rs:115 | a write transaction's `create_db` updates its working copy as `Store.CreateDb` does |
| Engine.Txn.Get | crates/mdbx-derive-traits/src/orm.rs:151-153 | the transaction's `get` answers from its working copy |
| Engine.Txn.Put | crates/mdbx-derive-traits/src/orm.rs:186-187 | a write transaction's `put` updates its working copy, and leaves it untouched on failure |
| Engine.Txn.Commit | crates/mdbx-derive-traits/src/orm.rs:257 | `commit` publishes the working copy as the environment's committed state |
| Engine.Env.BeginRoTxn | crates/mdbx-derive-traits/src/orm.rs:105 | a read transaction starts as a fresh, read-only snapshot of the committed state |
| Engine.Env.BeginRwTxn | crates/mdbx-derive-traits/src/orm.rs:125 | a write transaction starts as a fresh, writable copy of the committed state |
| Orm.MdbxTable | crates/mdbx-derive-traits/src/orm.rs:315-322 | a table declared with `mdbx_table!` is named `Some(ident)` and tagged by its own type |
| Orm.OpenTableIn | crates/mdbx-derive-traits/src/orm.rs:92-99 | `open_table_tx` gives the handle of the table's `NAME`, or `NotFound` when it does not exist |
| Orm.CreateTableIn | crates/mdbx-derive-traits/src/orm.rs:110-118 | `create_table_tx` on a state: `create_db` of the table's `NAME` with the given flags (stated by `Store.CreateDbSpec` and `Orm.CreateTableCommittedThenOpen`) |
| Orm.ReadDbi | crates/mdbx-derive-traits/src/orm.rs:146-150 | the handle `get_item_tx` reads from: the given one, otherwise the table opened by `NAME` (stated by `Orm.GetItemCases`) |
| Orm.GetItemIn | crates/mdbx-derive-traits/src/orm.rs:140-159 | `get_item_tx` on a state (stated by `Orm.GetItemCases` and `Orm.PutThenGet`) |
| Orm.PutItemIn | crates/mdbx-derive-traits/src/orm.rs:173-190 | `put_item_tx` on a state: the given handle or a table created with default flags, then `put` of the encoded key and value (stated by `Orm.PutThenGet` and `Orm.PutKeepsOthers`) |
| Orm.MetadataDbi | crates/mdbx-derive-traits/src/orm.rs:234-238 | the metadata handle: the given one, otherwise the unnamed database (stated by `Orm.MetadataRoundTrip`) |
| Orm.WriteMetadataIn | crates/mdbx-derive-traits/src/orm.rs:227-248 | `write_metadata_tx` on a state (stated by `Orm.MetadataRoundTrip`) |
| Orm.MetadataIn | crates/mdbx-derive-traits/src/orm.rs:262-279 | `metadata_tx` on a state (stated by `Orm.MetadataRoundTrip` and `Orm.MetadataAbsentInitially`) |
| Orm.DecodeStored | crates/mdbx-derive-traits/src/orm.rs:151-155 | an absent value is `Ok(None)`; a present one is `Some` of its decode, or that decode's error (`transpose`) |
| Orm.OpenTableTx | crates/mdbx-derive-traits/src/orm.rs:92-99 | the method opens the table in the transaction's state |
| Orm.OpenTable | crates/mdbx-derive-traits/src/orm.rs:101-108 | `open_table` answers from a read snapshot of the committed state |
| Orm.CreateTableTx | crates/mdbx-derive-traits/src/orm.rs:110-118 | `create_table_tx` creates or reopens the table's sub-database with the given flags in the transaction |
| Orm.GetItemTx | crates/mdbx-derive-traits/src/orm.rs:140-159 | `get_item_tx` behaves as the read specification on the transaction's state |
| Orm.GetItem | crates/mdbx-derive-traits/src/orm.rs:130-138 | `get_item` reads the committed state with no handle given |
| Orm.PutItemTx | crates/mdbx-derive-traits/src/orm.rs:173-190 | `put_item_tx` behaves as the write specification on the transaction's state: resolve or create the handle, encode key and value, put |
| Orm.PutItem | crates/mdbx-derive-traits/src/orm.rs:161-171 | as written: returns the inner result and leaves the committed state as it was |
| Orm.PutItemCommitted | crates/mdbx-derive-traits/src/orm.rs:161-171 | corrected: a successful put is committed, and a failed one leaves the committed state unchanged |
| Orm.CreateTable | crates/mdbx-derive-traits/src/orm.rs:120-128 | as written: returns the handle and leaves the committed state as it was |
| Orm.CreateTableCommitted | crates/mdbx-derive-traits/src/orm.rs:120-128 | corrected: a successful creation is committed |
| Orm.WriteMetadataTx | crates/mdbx-derive-traits/src/orm.rs:227-248 | `write_metadata_tx` puts the encoded metadata at `b"metadata"` in the given handle or the unnamed database |
| Orm.WriteMetadata | crates/mdbx-derive-traits/src/orm.rs:250-260 | `write_metadata` commits exactly when the write succeeded, and leaves the committed state unchanged on error |
| Orm.MetadataTx | crates/mdbx-derive-traits/src/orm.rs:262-279 | `metadata_tx` reads and decodes the value at `b"metadata"` |
| Orm.Metadata | crates/mdbx-derive-traits/src/orm.rs:281-286 | `metadata` reads the unnamed database of the committed state |
| Orm.GetItemCases | crates/mdbx-derive-traits/src/orm.rs:146-157 | get uses the given handle or opens the table (`NotFound` if missing); a key-encode error propagates; an unknown handle is `BadDbi`; an absent key is `None`; a present one is decoded |
| Orm.PutThenGet | crates/mdbx-derive-traits/src/orm.rs:181-188 | after a successful put, a get with the same handle argument returns the value put, and the state stays well formed |
| Orm.PutKeepsOthers | crates/mdbx-derive-traits/src/orm.rs:186-187 | a put changes no other key in any table |
| Orm.MetadataRoundTrip | crates/mdbx-derive-traits/src/orm.rs:234-246 | metadata written is read back, and without a handle it sits at `b"metadata"` in the unnamed database |
| Orm.MetadataAbsentInitially | crates/mdbx-derive-traits/src/orm.rs:268-277 | in a fresh environment metadata reads as `None` |
| Orm.PutItemLost | crates/mdbx-derive-traits/src/orm.rs:167-170 | a `put_item` that reports `Ok` on a fresh environment leaves nothing a later `get_item` can find |
| Orm.PutItemCommittedThenGet | crates/mdbx-derive-traits/src/orm.rs:161-171 | with the commit, `get_item` after `put_item` returns the value put |
| Orm.CreateTableLost | crates/mdbx-derive-traits/src/orm.rs:124-127 | a `create_table` that returns a handle leaves a table that `open_table` cannot find |
| Orm.CreateTableCommittedThenOpen | crates/mdbx-derive-traits/src/orm.rs:120-128 | with the commit, `open_table` after `create_table` returns the same handle |
| Registry.MatchNameMut | crates/mdbx-derive-traits/src/orm.rs:49-55 | the result is the first position whose tag and `NAME` both match, or `None` iff no entry matches (so `None` on the empty list) |
| Registry.MatchName | crates/mdbx-derive-traits/src/orm.rs:41-47 | a returned table is a member of the list whose tag and `NAME` both match |
| Registry.MatchNameAgrees | crates/mdbx-derive-traits/src/orm.rs:41-55 | `match_name` and `match_name_mut` select the same entry |
| Registry.MatchNameSkipsOtherNames | crates/mdbx-derive-traits/src/orm.rs:42 | an entry of the requested type but with another `NAME` is never selected |
| Registry.CreateAll | crates/mdbx-derive-traits/src/orm.rs:73-82 | the recursive `create_all` over a transaction behaves as its specification: head first, `insert` then `extend` |
| Registry.NameKey | crates/mdbx-derive-traits/src/orm.rs:79 | the map key of a table: its `NAME`, or `""` for `None` (stated by `Registry.CreateAllKeys` and `Registry.DbiOf`) |
| Registry.CreateAllIn | crates/mdbx-derive-traits/src/orm.rs:58-82 | `MDBXTables::create_all` on a state, for the empty list and for a head/tail pair (stated by `Registry.CreateAllFailureSticks`, `Registry.CreateAllState`, `Registry.CreateAllKeys` and `Registry.CreateAllValues`) |
| Registry.CreateAllFailureSticks | crates/mdbx-derive-traits/src/orm.rs:78-80 | once a prefix fails, the whole `create_all` has that error and that state, so the tables after it are not attempted |
| Registry.CreateAllState | crates/mdbx-derive-traits/src/orm.rs:73-82 | a successful `create_all` keeps the state well formed, keeps existing names at their handles, and leaves every listed table existing |
| Registry.CreateAllKeys | crates/mdbx-derive-traits/src/orm.rs:58-82 | the map's keys are exactly the members' names, with `""` for `None` (empty for the empty list) |
| Registry.CreateAllValues | crates/mdbx-derive-traits/src/orm.rs:77-81 | each member's name maps to the handle that name has afterwards |
| Registry.DbiOf | crates/mdbx-derive-traits/src/orm.rs:200-204 | `dbi::<T>()` is present iff the map has `T`'s name (or `""`), and is that entry |
| Registry.DbiAfterCreateAll | crates/mdbx-derive-traits/src/orm.rs:200-204 | after `create_all`, `dbi::<T>()` of each member equals what `open_table_tx` gives for it |
| Registry.DatabaseCreateAll | crates/mdbx-derive-traits/src/orm.rs:216-225 | as written: discards the map, returns the inner result, and leaves the committed state as it was |
| Registry.DatabaseCreateAllEnv | crates/mdbx-derive-traits/src/orm.rs:216-225 | `MDBXDatabase::create_all` on the committed state, as written (stated by `Registry.DatabaseCreateAllLost`) |
| Registry.DatabaseCreateAllCommitted | crates/mdbx-derive-traits/src/orm.rs:216-225 | corrected: a successful registry creation is committed, and a failed one leaves the committed state unchanged |
| Registry.DatabaseCreateAllLost | crates/mdbx-derive-traits/src/orm.rs:220-224 | `MDBXDatabase::create_all` can report `Ok` yet its table cannot be opened afterwards |
| Registry.DatabaseCreateAllCommittedOpens | crates/mdbx-derive-traits/src/orm.rs:216-225 | with the commit, every listed table can be opened afterwards |
| DbiStruct.FlagsFor | crates/mdbx-derive-macros/src/lib.rs:373-377 | a table is created with `DUP_SORT` iff it is DUPSORT, and with the default flags iff it is not |
| DbiStruct.CreateTablesFailureSticks | crates/mdbx-derive-macros/src/lib.rs:497-499 | once a creation fails, `new`'s outcome is that failure whatever tables follow |
| DbiStruct.CreateTablesIn | crates/mdbx-derive-macros/src/lib.rs:372-378 | the per-table creation statements of `new`, in declaration order (stated by `DbiStruct.CreateTablesSpec` and `DbiStruct.CreateTablesFailureSticks`) |
| DbiStruct.New | crates/mdbx-derive-macros/src/lib.rs:492-506 | the generated `new` creates the tables in declaration order in one write transaction. It commits only when all succeed and leaves the committed state unchanged otherwise |
| DbiStruct.CreateTablesSpec | crates/mdbx-derive-macros/src/lib.rs:372-378 | on success there is one handle per table, each is what opening that table gives afterwards, and each table carries the flags its DUPSORT calls for |
| DbiStruct.OpenTablesIn | crates/mdbx-derive-macros/src/lib.rs:396-397 | opening all tables succeeds iff every name exists, giving their handles in order; otherwise `NotFound` |
| DbiStruct.NewRo | crates/mdbx-derive-macros/src/lib.rs:508-519 | the generated `new_ro` opens every table in the transaction, in declaration order |
| DbiStruct.ReadTableTx | crates/mdbx-derive-macros/src/lib.rs:465-480 | `read_*_tx` is a get with the stored handle: `None` for an absent key, otherwise `Some` of the decoded value |
| DbiStruct.WriteTableTx | crates/mdbx-derive-macros/src/lib.rs:448-463 | `write_*_tx` is a put with the stored handle of the encoded key and value |
| DbiStruct.WriteThenRead | crates/mdbx-derive-macros/src/lib.rs:448-480 | after a successful `write_*_tx`, `read_*_tx` of the same key returns the value written |

## Left out

- The engine and its transport are not modelled. `Store` and `Engine` are an abstract stand-in, not a model of libmdbx:
  - DBI numbers are assigned sequentially from 1, and the unnamed database is 0.
  - Transactions are snapshots that are published on commit and discarded on drop.
- `WriteFlags` are carried along but not interpreted, and `DUP_SORT` only tags a table. The multi-value semantics of a DUPSORT table are not modelled, so a put replaces the stored value.
- `async`/`.await`, `Send`/`Sync` and concurrency: each call is a sequential method.
- Beginning and committing a transaction never fail in the stand-in. The `?` after `begin_ro_txn`, `begin_rw_txn` and `commit` (crates/mdbx-derive-traits/src/orm.rs:105, 125, 135, 168, 221, 255, 257, 283; crates/mdbx-derive-macros/src/lib.rs:495, 501) is therefore not modelled, in the environment forms of `Orm`, `Registry` and `DbiStruct`.
- `&str` keys are modelled by their UTF-8 bytes, so the `as_bytes` step of crates/mdbx-derive-traits/src/key.rs:16 is not modelled.
- The concrete codecs (zstd, bincode, bcs, serde_json/simd-json) are function-valued parameters with assumed round-trip predicates. Their byte formats are not modelled.
  - Bincode's consumed-byte count (`.0` of `decode_from_slice`) is dropped.
- Proc-macro token plumbing (`quote!`, `syn`, `MacroInput::parse`, `compile_error!`) is not modelled; only the behaviour of the generated code is.
- Field names from `heck::ToSnakeCase` (crates/mdbx-derive-macros/src/lib.rs:346-358) are a foreign call. The generated struct is modelled positionally as a sequence of handles, with one per table in declaration order.
- The `typeid`-based `type_eq` and the `unsafe` `&raw const`/`&raw mut` casts in `MatchName` are replaced by a type tag stored in each descriptor. `Orm.MdbxTable` takes that tag to be the bare identifier given to `mdbx_table!`, so two such tables declared with the same identifier in different modules share a tag in the model, where `typeid` tells them apart.
- The feature-gated `JSONError` alias and the `From` conversions of crates/mdbx-derive-traits/src/error.rs are not modelled. Causes are strings, and the variant each stage raises is chosen explicitly.
- The re-export files crates/mdbx-derive/src/lib.rs and crates/mdbx-derive-traits/src/lib.rs, and environment opening by URL (`open_create_tables_with_defaults`, `open_tables_with_defaults`), are not modelled.
- Registry.CreateAllValues: stated only for tables that are not literally named `""`. With such a table, `NAME = Some("")` and `NAME = None` share the key `""`, and the map keeps only the later one.
- Registry.DbiAfterCreateAll: stated under the same no-`""`-name condition, for the same reason.
- DerivedKey.RoundTrip: assumes each field encoding is exactly its KEYSIZE long. The derive does not check this. The `bs[range].try_into().unwrap()` in the generated decode (crates/mdbx-derive-macros/src/lib.rs:117, 131) converts a slice to a slice and cannot fail. A field encoding of the wrong length shows up instead as an `IncorrectSchema` error for the whole key, or as misaligned field slices.
- The error datatype adds `IncorrectSchema(bytes)`, which the derived decode emits but the error enum shown lacks. It also adds `Bcs(cause)`, for the `?` on `bcs` results.
- DbiStruct.FlagsFor reads DUPSORT from a descriptor field. The generated code reads an `MDBXTable::DUPSORT` constant that the trait shown does not declare.

## Findings

The three write operations below open a write transaction and never commit it. Under the
stand-in engine, as under libmdbx, a transaction that is dropped without a commit is aborted,
so the write is lost even though the call reports success. `write_metadata` in the same file
does commit (crates/mdbx-derive-traits/src/orm.rs:257), which shows the intended pattern.

| source | as written | input that shows it | evidently intended | confidence | as-written member | corrected member |
|---|---|---|---|---|---|---|
| crates/mdbx-derive-traits/src/orm.rs:161-171 | `put_item` puts inside a write transaction that is dropped without `commit` | fresh environment, table `T` with verbatim keys, key `[1]`, value `[2]`: returns `Ok(())`, then `get_item` gives `NotFound` | commit after a successful `put_item_tx`, so `get_item` returns the value | not executed; relies on a dropped write transaction aborting | Orm.PutItem, Orm.PutItemLost | Orm.PutItemCommitted, Orm.PutItemCommittedThenGet |
| crates/mdbx-derive-traits/src/orm.rs:120-128 | `create_table` creates inside a write transaction that is dropped without `commit` | fresh environment, table `T`: returns `Ok(1)`, then `open_table` gives `NotFound` | commit after a successful `create_table_tx`, so `open_table` finds the table | not executed; relies on a dropped write transaction aborting | Orm.CreateTable, Orm.CreateTableLost | Orm.CreateTableCommitted, Orm.CreateTableCommittedThenOpen |
| crates/mdbx-derive-traits/src/orm.rs:216-225 | `MDBXDatabase::create_all` creates every table inside a write transaction that is dropped without `commit` | fresh environment, registry `[T]`: returns `Ok(())`, then `open_table` of `T` gives `NotFound` | commit after `Tables::create_all` succeeds, so every table exists | not executed; relies on a dropped write transaction aborting | Registry.DatabaseCreateAll, Registry.DatabaseCreateAllLost | Registry.DatabaseCreateAllCommitted, Registry.DatabaseCreateAllCommittedOpens |
