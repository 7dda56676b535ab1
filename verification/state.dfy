/** The record-storage layer: the 96-byte header at the start of every name
    account, its Borsh pack/unpack, the initialisation test, raw writes into
    account data, and the derivation of a name account's address seeds. */
module State {
  import opened Primitives
  import opened Solana
  import Borsh

  /** The header of a name record, in its fixed field order. A missing parent
      or class is stored as `DefaultKey`. */
  datatype NameRecordHeader = NameRecordHeader(parentName: Pubkey, owner: Pubkey, nameClass: Pubkey)

  /** `Pack::LEN`: three 32-byte keys. */
  const HeaderLen: nat := 96

  /** Borsh serialisation of a header: its fields in declaration order, each
      key as 32 raw bytes. */
  function Serialize(h: NameRecordHeader): (r: seq<u8>)
    ensures |r| == HeaderLen
    ensures r[..32] == h.parentName && r[32..64] == h.owner && r[64..96] == h.nameClass
  {
    h.parentName + h.owner + h.nameClass
  }

  /** `pack_into_slice`: serialise the header through a cursor at the start of
      `dst`. The cursor cannot grow the slice, so a destination shorter than
      the header makes the serialisation fail and the `unwrap` panic. */
  function PackIntoSlice(h: NameRecordHeader, dst: seq<u8>): (r: seq<u8>)
    requires |dst| >= HeaderLen
    ensures |r| == |dst|
    ensures r[..32] == h.parentName && r[32..64] == h.owner && r[64..96] == h.nameClass
    ensures r[HeaderLen..] == dst[HeaderLen..]
  {
    Serialize(h) + dst[HeaderLen..]
  }

  /** `unpack_from_slice`: Borsh `try_from_slice`, which reads the three keys
      and then insists that no byte is left over. Every failure surfaces as
      `InvalidAccountData`. */
  function UnpackFromSlice(src: seq<u8>): (r: Result<NameRecordHeader, ProgramError>)
    ensures r.Ok? <==> |src| == HeaderLen
    ensures r.Ok? ==> Serialize(r.value) == src
    ensures r.Err? ==> r.error == InvalidAccountData
  {
    match TryFromSlice(src)
    case Ok(h) => Ok(h)
    case Err(_) => Err(InvalidAccountData)
  }

  /** The Borsh reader behind `try_from_slice`. */
  function TryFromSlice(src: seq<u8>): (r: Result<NameRecordHeader, Borsh.Error>)
    ensures r.Ok? ==> Serialize(r.value) == src
  {
    var (parentName, r1) :- Borsh.ParseKey(src);
    var (owner, r2) :- Borsh.ParseKey(r1);
    var (nameClass, r3) :- Borsh.ParseKey(r2);
    if r3 != [] then Err(Borsh.TrailingBytes)
    else Ok(NameRecordHeader(parentName, owner, nameClass))
  }

  /** `is_initialized`: a record exists once its owner is not the all-zero
      key; parent and class play no part. */
  function IsInitialized(h: NameRecordHeader): (b: bool)
    ensures b <==> exists i :: 0 <= i < PubkeyLen && h.owner[i] != 0
  {
    if h.owner == DefaultKey then false
    else
      assert exists i :: 0 <= i < PubkeyLen && h.owner[i] != DefaultKey[i];
      true
  }

  /** `write_data`: copy `input` over `data[offset .. offset + |input|]`.
      Slicing out of range panics, hence the precondition. */
  function WriteData(data: seq<u8>, input: seq<u8>, offset: nat): (r: seq<u8>)
    requires offset + |input| <= |data|
    ensures |r| == |data|
    ensures r[offset..offset + |input|] == input
    ensures forall i :: 0 <= i < |data| && !(offset <= i < offset + |input|) ==> r[i] == data[i]
  {
    data[..offset] + input + data[offset + |input|..]
  }

  /** The concatenation of a list of byte strings. */
  function Flatten(chunks: seq<seq<u8>>): seq<u8> {
    if |chunks| == 0 then [] else chunks[0] + Flatten(chunks[1..])
  }

  /** Rust's `slice::chunks(n)`: consecutive pieces of `n` bytes, the last
      one possibly shorter, none empty. */
  function Chunks(s: seq<u8>, n: nat): (r: seq<seq<u8>>)
    requires n > 0
    ensures Flatten(r) == s
    ensures forall i :: 0 <= i < |r| ==> 0 < |r[i]| <= n
    ensures forall i :: 0 <= i < |r| - 1 ==> |r[i]| == n
    decreases |s|
  {
    if |s| == 0 then []
    else if |s| <= n then [s]
    else
      var rest := Chunks(s[n..], n);
      assert s == s[..n] + s[n..];
      [s[..n]] + rest
  }

  /** Length of each seed handed to the address derivation. */
  const SeedChunkLen: nat := 32

  /** The seed bytes before the bump: the hashed name, then the class (or 32
      zero bytes), then the parent (or 32 zero bytes). */
  function SeedBytes(hashedName: seq<u8>, classOpt: Option<Pubkey>, parentOpt: Option<Pubkey>): seq<u8> {
    hashedName + KeyOrDefault(classOpt) + KeyOrDefault(parentOpt)
  }

  /** `get_seeds_and_key`. The host's `find_program_address`, which hashes the
      seeds and probes bump values until the result is off the curve, is the
      parameter `findProgramAddress`: any deterministic map from (seeds,
      program id) to (address, bump). The result is the derived address and
      the seed bytes with the winning bump appended. */
  function GetSeedsAndKey(
    programId: Pubkey,
    hashedName: seq<u8>,
    classOpt: Option<Pubkey>,
    parentOpt: Option<Pubkey>,
    findProgramAddress: (seq<seq<u8>>, Pubkey) -> (Pubkey, u8)
  ): (r: (Pubkey, seq<u8>))
    ensures |r.1| == |hashedName| + 2 * PubkeyLen + 1
    ensures r.1[..|hashedName|] == hashedName
    ensures r.1[|hashedName|..|hashedName| + 32] == KeyOrDefault(classOpt)
    ensures r.1[|hashedName| + 32..|hashedName| + 64] == KeyOrDefault(parentOpt)
    ensures findProgramAddress(Chunks(r.1[..|r.1| - 1], SeedChunkLen), programId) == (r.0, r.1[|r.1| - 1])
  {
    var seeds := SeedBytes(hashedName, classOpt, parentOpt);
    var (key, bump) := findProgramAddress(Chunks(seeds, SeedChunkLen), programId);
    assert (seeds + [bump])[..|seeds|] == seeds;
    (key, seeds + [bump])
  }

  // ---------------------------------------------------------------------
  // Header codec

  /** Unpacking the first 96 bytes of a packed destination gives back the
      header, whatever the destination held before. */
  lemma UnpackPackRoundTrip(h: NameRecordHeader, dst: seq<u8>)
    requires |dst| >= HeaderLen
    ensures UnpackFromSlice(PackIntoSlice(h, dst)[..HeaderLen]) == Ok(h)
  {
  }

  /** Packing a header that was just unpacked from an account's first 96
      bytes writes those bytes back unchanged. */
  lemma RepackIsIdentity(data: seq<u8>)
    requires |data| >= HeaderLen && UnpackFromSlice(data[..HeaderLen]).Ok?
    ensures PackIntoSlice(UnpackFromSlice(data[..HeaderLen]).value, data) == data
  {
  }

  /** Packing is a raw write of the serialised header at offset 0. */
  lemma PackIsWriteAtZero(h: NameRecordHeader, dst: seq<u8>)
    requires |dst| >= HeaderLen
    ensures PackIntoSlice(h, dst) == WriteData(dst, Serialize(h), 0)
  {
  }

  /** A record is initialised exactly when some byte of the owner field, bytes
      32..64 of the account, is non-zero. */
  lemma InitializedIffOwnerBytesNonZero(src: seq<u8>)
    requires |src| == HeaderLen
    ensures UnpackFromSlice(src).Ok?
    ensures IsInitialized(UnpackFromSlice(src).value) <==> exists i :: 32 <= i < 64 && src[i] != 0
  {
  }

  /** Freshly allocated, all-zero account data reads as a record that does not
      exist: every field is the default key. */
  lemma ZeroedAccountIsUninitialized(data: seq<u8>)
    requires |data| >= HeaderLen
    requires forall i :: 0 <= i < HeaderLen ==> data[i] == 0
    ensures UnpackFromSlice(data[..HeaderLen]) == Ok(NameRecordHeader(DefaultKey, DefaultKey, DefaultKey))
    ensures !IsInitialized(UnpackFromSlice(data[..HeaderLen]).value)
  {
    var h := UnpackFromSlice(data[..HeaderLen]).value;
    assert Serialize(h) == data[..HeaderLen];
    assert h.parentName == DefaultKey && h.owner == DefaultKey && h.nameClass == DefaultKey;
  }

  // ---------------------------------------------------------------------
  // Raw writes

  /** Writing the same bytes at the same place twice is the same as once. */
  lemma WriteDataIdempotent(data: seq<u8>, input: seq<u8>, offset: nat)
    requires offset + |input| <= |data|
    ensures WriteData(WriteData(data, input, offset), input, offset) == WriteData(data, input, offset)
  {
  }

  /** Of two equally long writes at the same offset only the second is seen. */
  lemma WriteDataLastWins(data: seq<u8>, first: seq<u8>, second: seq<u8>, offset: nat)
    requires |first| == |second| && offset + |second| <= |data|
    ensures WriteData(WriteData(data, first, offset), second, offset) == WriteData(data, second, offset)
  {
  }

  /** Writes to disjoint ranges commute. */
  lemma WriteDataDisjointCommute(data: seq<u8>, a: seq<u8>, offsetA: nat, b: seq<u8>, offsetB: nat)
    requires offsetA + |a| <= offsetB && offsetB + |b| <= |data|
    ensures WriteData(WriteData(data, a, offsetA), b, offsetB) == WriteData(WriteData(data, b, offsetB), a, offsetA)
  {
  }

  /** A write that starts at or after byte 96 leaves the header as it was. */
  lemma WriteBeyondHeaderKeepsHeader(data: seq<u8>, input: seq<u8>, offset: nat)
    requires HeaderLen <= offset && offset + |input| <= |data|
    ensures WriteData(data, input, offset)[..HeaderLen] == data[..HeaderLen]
    ensures UnpackFromSlice(WriteData(data, input, offset)[..HeaderLen]) == UnpackFromSlice(data[..HeaderLen])
  {
  }

  // ---------------------------------------------------------------------
  // Seeds

  /** The chunking is the only way to cut `s` into non-empty pieces of `n`
      bytes with a possibly shorter last piece. */
  lemma {:induction false} ChunksUnique(s: seq<u8>, n: nat, pieces: seq<seq<u8>>)
    requires n > 0
    requires Flatten(pieces) == s
    requires forall i :: 0 <= i < |pieces| ==> 0 < |pieces[i]| <= n
    requires forall i :: 0 <= i < |pieces| - 1 ==> |pieces[i]| == n
    ensures pieces == Chunks(s, n)
    decreases |pieces|
  {
    if |pieces| == 0 {
    } else if |pieces| == 1 {
      assert Flatten(pieces) == pieces[0] + Flatten(pieces[1..]);
      assert pieces[1..] == [];
      assert s == pieces[0];
    } else {
      var tail := pieces[1..];
      assert s == pieces[0] + Flatten(tail);
      assert |pieces[0]| == n;
      assert |Flatten(tail)| > 0 by {
        assert Flatten(tail) == tail[0] + Flatten(tail[1..]);
      }
      assert s[..n] == pieces[0] && s[n..] == Flatten(tail);
      ChunksUnique(s[n..], n, tail);
      assert pieces == [pieces[0]] + tail;
    }
  }

  /** With a 32-byte hashed name the seeds are exactly the three 32-byte
      fields: hashed name, class or zeros, parent or zeros. */
  lemma SeedChunksOfFullHash(hashedName: seq<u8>, classOpt: Option<Pubkey>, parentOpt: Option<Pubkey>)
    requires |hashedName| == 32
    ensures Chunks(SeedBytes(hashedName, classOpt, parentOpt), SeedChunkLen)
         == [hashedName, KeyOrDefault(classOpt), KeyOrDefault(parentOpt)]
  {
    var pieces := [hashedName, KeyOrDefault(classOpt), KeyOrDefault(parentOpt)];
    assert Flatten(pieces[2..]) == KeyOrDefault(parentOpt) + Flatten(pieces[3..]);
    assert Flatten(pieces[1..]) == KeyOrDefault(classOpt) + Flatten(pieces[2..]);
    assert Flatten(pieces) == SeedBytes(hashedName, classOpt, parentOpt);
    ChunksUnique(SeedBytes(hashedName, classOpt, parentOpt), SeedChunkLen, pieces);
  }

  /** A missing class or parent and the all-zero key give the same seeds and
      therefore the same address and bump. */
  lemma AbsentEqualsDefaultKey(
    programId: Pubkey, hashedName: seq<u8>, classOpt: Option<Pubkey>, parentOpt: Option<Pubkey>,
    findProgramAddress: (seq<seq<u8>>, Pubkey) -> (Pubkey, u8))
    ensures GetSeedsAndKey(programId, hashedName, None, parentOpt, findProgramAddress)
         == GetSeedsAndKey(programId, hashedName, Some(DefaultKey), parentOpt, findProgramAddress)
    ensures GetSeedsAndKey(programId, hashedName, classOpt, None, findProgramAddress)
         == GetSeedsAndKey(programId, hashedName, classOpt, Some(DefaultKey), findProgramAddress)
  {
  }

  /** The pre-bump seed bytes determine the hashed name and the (defaulted)
      class and parent: distinct triples never share seeds. */
  lemma SeedBytesInjective(
    name1: seq<u8>, class1: Option<Pubkey>, parent1: Option<Pubkey>,
    name2: seq<u8>, class2: Option<Pubkey>, parent2: Option<Pubkey>)
    requires SeedBytes(name1, class1, parent1) == SeedBytes(name2, class2, parent2)
    ensures name1 == name2
    ensures KeyOrDefault(class1) == KeyOrDefault(class2)
    ensures KeyOrDefault(parent1) == KeyOrDefault(parent2)
  {
    var s := SeedBytes(name1, class1, parent1);
    var n := |name1|;
    assert |name2| == n;
    assert s[..n] == name1 && s[..n] == name2;
    assert s[n..n + 32] == KeyOrDefault(class1) && s[n..n + 32] == KeyOrDefault(class2);
    assert s[n + 32..] == KeyOrDefault(parent1) && s[n + 32..] == KeyOrDefault(parent2);
  }
}
