# Name registry: record storage and instruction layer in Dafny

This project models two sequential parts of an on-chain name registry
program:

- **Record storage** (`program/src/state.rs`). A name record begins with
  a 96-byte `NameRecordHeader` holding three 32-byte keys: parent name,
  owner and class. The model covers:
  - the header's Borsh pack and unpack;
  - the "initialized iff the owner is not the all-zero key" test;
  - `write_data`, the raw byte-range write into account data;
  - `get_seeds_and_key`, which builds the seeds a name account's address
    is derived from.
- **Instructions** (`program/src/instruction.rs`). The model covers:
  - the four-variant `NameRegistryInstruction` enum (Create, Update,
    Transfer, Delete) with its Borsh wire encoding;
  - the four client-side builders `create`, `update`, `transfer` and
    `delete`. Each builder returns the account-meta list and the data of
    an instruction.

Modules:

| file | module | contents |
|---|---|---|
| `primitives.dfy` | `Primitives` | `u8`/`u32`/`u64`, `Option`, `Result` |
| `solana.dfy` | `Solana` | `Pubkey` (32 bytes), the default key, `AccountMeta`, `Instruction`, `ProgramError` |
| `borsh.dfy` | `Borsh` | little-endian integers, `Vec<u8>`, `Pubkey`: encoders, prefix parsers and their round trips |
| `state.dfy` | `State` | the header codec, `IsInitialized`, `WriteData`, `Chunks`, `GetSeedsAndKey` |
| `instruction_codec.dfy` | `InstructionCodec` | the enum and its encode/decode |
| `builders.dfy` | `Builders` | the four builders, plus `CreateIntended` (see Findings) |

Everything is a pure function over immutable values. Account data is a
`seq<u8>`. The host's `find_program_address` is passed in as a function
parameter. It hashes the seeds and probes bump values until the address
is off the ed25519 curve. Inside the model it can be any deterministic map
from (seeds, program id) to (address, bump).

Where the code does not behave like a prose description of the system, the
model follows the code:

- Header decoding accepts exactly 96 bytes and rejects every other
  length. Borsh's `try_from_slice` refuses unread trailing bytes, so
  longer inputs fail too, not only shorter ones.
- `hashed_name` can have any length; nothing forces it to 32 bytes.
- The builders validate nothing. `create` encodes whatever variant it is
  handed.
- `transfer` takes only an optional parent record. It has no class or
  parent-owner parameter.

Three source panics become preconditions:

- the header `unwrap` when the destination is shorter than 96 bytes;
- the out-of-range slice in `write_data`;
- `try_to_vec().unwrap()` on a `Vec` longer than a `u32` length prefix
  allows.

## Model

| member | source | states |
|---|---|---|
| Borsh.FromLeOfLeBytes | program/src/instruction.rs:23-27 | reading back the n-byte little-endian form of any x below 256^n gives x |
| Borsh.ParseU32 | program/src/instruction.rs:43-46 | a u32 field reads successfully exactly when four bytes remain; the bytes consumed are the little-endian form of the value read; otherwise the error is end of input |
| Borsh.ParseBytes | program/src/instruction.rs:43-46 | a `Vec<u8>` field reads successfully exactly when the four-byte length prefix is followed by at least that many bytes; what it consumes is the encoding of the vector it returns |
| Borsh.ParseBytesEncoded | program/src/instruction.rs:23-27 | the encoding of any vector shorter than 2^32 reads back as that vector, leaving any following bytes untouched |
| State.Serialize | program/src/state.rs:12-22 | a header is exactly 96 bytes: parent name in 0..32, owner in 32..64, class in 64..96 |
| State.PackIntoSlice | program/src/state.rs:24-27 | packing keeps the destination's length, puts the three keys in bytes 0..96 in field order, and leaves every byte from 96 on unchanged |
| State.UnpackFromSlice | program/src/state.rs:29-34 | unpacking succeeds if and only if the slice is exactly 96 bytes; success gives the header whose serialization is the slice; every failure is `InvalidAccountData` |
| State.UnpackPackRoundTrip | program/src/state.rs:24-34 | unpacking the first 96 bytes of any packed destination returns the packed header |
| State.RepackIsIdentity | program/src/state.rs:24-34 | packing a header just unpacked from an account's first 96 bytes reproduces the account data byte for byte |
| State.PackIsWriteAtZero | program/src/state.rs:24-27 | packing equals a raw write of the serialized header at offset 0 |
| State.IsInitialized | program/src/state.rs:37-41 | a header is initialized if and only if some byte of its owner key is non-zero; parent and class do not enter |
| State.InitializedIffOwnerBytesNonZero | program/src/state.rs:37-41 | for 96 bytes of account data, the unpacked record is initialized if and only if some byte in positions 32..64 is non-zero |
| State.ZeroedAccountIsUninitialized | program/src/state.rs:37-41 | all-zero account data unpacks to three default keys and reads as not initialized |
| State.WriteData | program/src/state.rs:43-46 | within bounds, the result has the same length, holds `input` at `offset..offset+len`, and every other byte is unchanged |
| State.WriteDataIdempotent | program/src/state.rs:43-46 | writing the same input at the same offset twice equals writing it once |
| State.WriteDataLastWins | program/src/state.rs:43-46 | of two equally long writes at one offset, only the second is visible |
| State.WriteDataDisjointCommute | program/src/state.rs:43-46 | writes to disjoint ranges commute |
| State.WriteBeyondHeaderKeepsHeader | program/src/state.rs:43-46 | a write starting at byte 96 or later leaves the header bytes, and so the unpacked header, unchanged |
| State.Chunks | program/src/state.rs:62 | the chunks concatenate back to the input; each is non-empty and at most n bytes; all but the last are exactly n bytes |
| State.ChunksUnique | program/src/state.rs:62 | any split with those three properties is the chunking, so the seeds are fully determined by the seed bytes |
| State.GetSeedsAndKey | program/src/state.rs:48-67 | the seeds are hashed name, then class or 32 zero bytes, then parent or 32 zero bytes, then the bump; their length is the hashed name's length plus 65; the address and bump are what `find_program_address` returns for the 32-byte chunks of the pre-bump bytes, so a caller can re-derive them from the returned seeds |
| State.SeedChunksOfFullHash | program/src/state.rs:54-62 | with a 32-byte hashed name, the seeds passed to the derivation are exactly [hashed name, class or zeros, parent or zeros] |
| State.AbsentEqualsDefaultKey | program/src/state.rs:56-60 | an absent class or parent and `Some(default key)` give identical seeds, address and bump |
| State.SeedBytesInjective | program/src/state.rs:54-60 | equal pre-bump seed bytes imply equal hashed names and equal defaulted class and parent keys |
| InstructionCodec.Serialize | program/src/instruction.rs:12-74 | the first byte is the variant index in declaration order (0..3); the exact encoded length per variant; `Delete` encodes to the single byte 3 |
| InstructionCodec.TryToVec | program/src/instruction.rs:12-13 | serialization fails exactly when a vector is too long for its u32 prefix; otherwise its output decodes back to the instruction |
| InstructionCodec.Parse | program/src/instruction.rs:12-74 | whatever the reader accepts is an encodable instruction's encoding followed by the unread rest |
| InstructionCodec.TryFromSlice | program/src/instruction.rs:12-74 | an accepted input is exactly the encoding of the decoded instruction; a first byte above 3 is rejected as an unknown variant |
| InstructionCodec.ParseSerialize | program/src/instruction.rs:12-74 | reading the encoding of any instruction followed by any bytes returns the instruction and exactly those bytes |
| InstructionCodec.DecodeEncode | program/src/instruction.rs:12-74 | round trip: decoding the encoding of any encodable instruction gives it back |
| InstructionCodec.DecodeIffEncoding | program/src/instruction.rs:12-74 | a byte string decodes to an instruction if and only if it is that instruction's encoding |
| InstructionCodec.SerializeInjective | program/src/instruction.rs:12-74 | distinct instructions have distinct encodings |
| InstructionCodec.PrefixFree | program/src/instruction.rs:12-74 | no instruction's encoding is a proper prefix of another's |
| InstructionCodec.RejectsTrailingBytes | program/src/instruction.rs:12-74 | an encoding followed by any non-empty bytes is rejected as trailing bytes |
| InstructionCodec.RejectsTruncation | program/src/instruction.rs:12-74 | every proper prefix of an encoding is rejected, including a truncated field |
| InstructionCodec.RejectsUnknownVariant | program/src/instruction.rs:12-13 | any input whose first byte is above 3 is rejected with that tag |
| Builders.Create | program/src/instruction.rs:77-125 | returns Ok with the program id unchanged and data that decodes to the given instruction; exactly 7 accounts: system program read-only non-signer, payer writable signer, name account writable signer, owner read-only non-signer, then class, parent and parent owner, each read-only, holding the key or the default key, and signing only when supplied (class, parent owner) |
| Builders.CreateIntended | program/src/instruction.rs:91-96 | as `create`, but the name account is writable and not a signer, so the account list matches the enum's documented flags |
| Builders.CreateDeviatesFromDocumentation | program/src/instruction.rs:14-22 | for every input, the as-written `create` account list violates the documented flags, because the name account signs |
| Builders.CreateEncodesAnyVariant | program/src/instruction.rs:79-88 | `create` does not check the variant: handed `Delete`, it emits data [3] |
| Builders.CreateDistinguishesAbsentFromDefaultClass | program/src/instruction.rs:98-104 | an absent class and `Some(default key)` fill slot 4 with the same key but give different instructions, because only the supplied one signs |
| Builders.Update | program/src/instruction.rs:128-156 | returns Ok with the program id unchanged; the data decodes to `Update{offset, data}`; the accounts are [name writable non-signer, signer writable signer], plus the parent read-only non-signer exactly when supplied |
| Builders.Transfer | program/src/instruction.rs:158-184 | returns Ok with the program id unchanged; the data is 33 bytes and decodes to `Transfer{new_owner}`; the accounts are [name writable non-signer, current owner read-only signer], plus the parent read-only non-signer exactly when supplied |
| Builders.Delete | program/src/instruction.rs:186-205 | returns Ok with the program id unchanged; the data is [3] and decodes to `Delete`; the accounts are exactly name (writable, non-signer), owner (read-only, signer) and refund target (writable, non-signer) |
| Builders.BuildersDisagreeOnTag | program/src/instruction.rs:128-205 | the data built by `update`, `transfer` and `delete` starts with 1, 2 and 3 respectively |

## Left out

- `find_program_address`: its SHA-256 hashing and off-curve probing are
  host cryptography. It is a function parameter here. Its own failure
  modes, too many seeds or no viable bump, are not modelled.
- `AccountInfo`, the `RefCell` borrow in `write_data` and the panic when
  the data is already borrowed: host-runtime plumbing. Account data is a
  plain byte sequence.
- `msg!` logging: has no effect on results.
- `program/src/error.rs`: its single `OutOfSpace = 0` code, mapped to
  `ProgramError::Custom(0)`, is not produced by any modelled function.
- The processor's authorization checks, lamport and rent handling, and
  refunds: the processor is not part of this model.
- Rust's `usize` overflow of `offset + input.len()` in `write_data`: with
  unbounded integers such an offset already violates the bounds
  precondition. The source also panics in that case.

## Findings

| source | as written | input that shows it | evidently intended | confidence | as-written member | corrected member |
|---|---|---|---|---|---|---|
| program/src/instruction.rs:94 | `create` builds the name account's meta with `AccountMeta::new(name_account_key, true)`, marking it as a signer | any call: the account list always violates the enum's own documentation (line 18 lists the name account as `[writable]` only). The name account is the program-derived address from `get_seeds_and_key`, which has no private key, so a transaction carrying this instruction cannot be signed | `AccountMeta::new(name_account_key, false)`: writable, non-signer | medium, not executed | Builders.Create (shown by Builders.CreateDeviatesFromDocumentation) | Builders.CreateIntended |
