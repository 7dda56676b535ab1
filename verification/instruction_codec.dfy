/** The registry's instruction enum and its Borsh wire form: a one-byte
    variant index in declaration order, then the variant's fields in order. */
module InstructionCodec {
  import opened Primitives
  import opened Solana
  import opened Borsh

  datatype NameRegistryInstruction =
    | Create(hashedName: seq<u8>, lamports: u64, space: u32)
    | Update(offset: u32, data: seq<u8>)
    | Transfer(newOwner: Pubkey)
    | Delete

  /** Borsh can write the value: each `Vec<u8>` length fits its `u32` prefix. */
  predicate Encodable(i: NameRegistryInstruction) {
    match i
    case Create(hashedName, _, _) => |hashedName| < U32Bound
    case Update(_, data) => |data| < U32Bound
    case _ => true
  }

  /** The variant index Borsh writes first: declaration order. */
  function VariantIndex(i: NameRegistryInstruction): u8 {
    match i
    case Create(_, _, _) => 0
    case Update(_, _) => 1
    case Transfer(_) => 2
    case Delete => 3
  }

  function Serialize(i: NameRegistryInstruction): (r: seq<u8>)
    requires Encodable(i)
    ensures |r| >= 1 && r[0] == VariantIndex(i)
    ensures i.Create? ==> |r| == 1 + 4 + |i.hashedName| + 8 + 4
    ensures i.Update? ==> |r| == 1 + 4 + 4 + |i.data|
    ensures i.Transfer? ==> |r| == 1 + PubkeyLen
    ensures i.Delete? ==> r == [3]
  {
    [VariantIndex(i)] +
    match i
    case Create(hashedName, lamports, space) => EncodeBytes(hashedName) + EncodeU64(lamports) + EncodeU32(space)
    case Update(offset, data) => EncodeU32(offset) + EncodeBytes(data)
    case Transfer(newOwner) => newOwner
    case Delete => []
  }

  /** `try_to_vec`: serialisation fails only for a vector too long for its
      length prefix. */
  function TryToVec(i: NameRegistryInstruction): (r: Result<seq<u8>, Error>)
    ensures r.Ok? <==> Encodable(i)
    ensures r.Ok? ==> TryFromSlice(r.value) == Ok(i)
    ensures r.Err? ==> r.error == LengthOverflow
  {
    if Encodable(i) then
      DecodeEncode(i);
      Ok(Serialize(i))
    else Err(LengthOverflow)
  }

  /** The Borsh reader: reads one instruction from the front of `s` and returns
      it with the unread rest. */
  function Parse(s: seq<u8>): (r: Parsed<NameRegistryInstruction>)
    ensures r.Ok? ==> Encodable(r.value.0) && s == Serialize(r.value.0) + r.value.1
  {
    var (tag, r0) :- ParseU8(s);
    if tag == 0 then
      var (hashedName, r1) :- ParseBytes(r0);
      var (lamports, r2) :- ParseU64(r1);
      var (space, r3) :- ParseU32(r2);
      Ok((Create(hashedName, lamports, space), r3))
    else if tag == 1 then
      var (offset, r1) :- ParseU32(r0);
      var (data, r2) :- ParseBytes(r1);
      Ok((Update(offset, data), r2))
    else if tag == 2 then
      var (newOwner, r1) :- ParseKey(r0);
      Ok((Transfer(newOwner), r1))
    else if tag == 3 then
      Ok((Delete, r0))
    else
      Err(InvalidVariant(tag))
  }

  /** `try_from_slice`: read one instruction and reject any byte left over. */
  function TryFromSlice(s: seq<u8>): (r: Result<NameRegistryInstruction, Error>)
    ensures r.Ok? ==> Encodable(r.value) && s == Serialize(r.value)
    ensures |s| > 0 && s[0] > 3 ==> r == Err(InvalidVariant(s[0]))
  {
    var (i, rest) :- Parse(s);
    if rest != [] then Err(TrailingBytes) else Ok(i)
  }

  /** Reading an encoded instruction from the front of any byte string yields
      the instruction and leaves exactly the bytes after it. */
  lemma ParseSerialize(i: NameRegistryInstruction, rest: seq<u8>)
    requires Encodable(i)
    ensures Parse(Serialize(i) + rest) == Ok((i, rest))
  {
    var tag := VariantIndex(i);
    match i
    case Create(hashedName, lamports, space) =>
      var tail := EncodeBytes(hashedName) + (EncodeU64(lamports) + (EncodeU32(space) + rest));
      assert Serialize(i) + rest == [tag] + tail;
      ParseU8Encoded(tag, tail);
      ParseBytesEncoded(hashedName, EncodeU64(lamports) + (EncodeU32(space) + rest));
      ParseU64Encoded(lamports, EncodeU32(space) + rest);
      ParseU32Encoded(space, rest);
    case Update(offset, data) =>
      var tail := EncodeU32(offset) + (EncodeBytes(data) + rest);
      assert Serialize(i) + rest == [tag] + tail;
      ParseU8Encoded(tag, tail);
      ParseU32Encoded(offset, EncodeBytes(data) + rest);
      ParseBytesEncoded(data, rest);
    case Transfer(newOwner) =>
      assert Serialize(i) + rest == [tag] + (newOwner + rest);
      ParseU8Encoded(tag, newOwner + rest);
      ParseKeyEncoded(newOwner, rest);
    case Delete =>
      assert Serialize(i) + rest == [tag] + rest;
      ParseU8Encoded(tag, rest);
  }

  /** Round trip: every encodable instruction decodes to itself. */
  lemma DecodeEncode(i: NameRegistryInstruction)
    requires Encodable(i)
    ensures TryFromSlice(Serialize(i)) == Ok(i)
  {
    ParseSerialize(i, []);
    assert Serialize(i) + [] == Serialize(i);
  }

  /** Decoding succeeds on exactly the encodings: a byte string decodes to `i`
      if and only if it is the encoding of `i`. */
  lemma DecodeIffEncoding(s: seq<u8>, i: NameRegistryInstruction)
    ensures TryFromSlice(s) == Ok(i) <==> Encodable(i) && s == Serialize(i)
  {
    if Encodable(i) && s == Serialize(i) {
      DecodeEncode(i);
    }
  }

  /** The encoding is injective. */
  lemma SerializeInjective(i: NameRegistryInstruction, j: NameRegistryInstruction)
    requires Encodable(i) && Encodable(j) && Serialize(i) == Serialize(j)
    ensures i == j
  {
    DecodeEncode(i);
    DecodeEncode(j);
  }

  /** Bytes appended after an encoding are rejected. */
  lemma RejectsTrailingBytes(i: NameRegistryInstruction, extra: seq<u8>)
    requires Encodable(i) && extra != []
    ensures TryFromSlice(Serialize(i) + extra) == Err(TrailingBytes)
  {
    ParseSerialize(i, extra);
  }

  /** No encoding is a proper prefix of another. */
  lemma PrefixFree(i: NameRegistryInstruction, j: NameRegistryInstruction, rest: seq<u8>)
    requires Encodable(i) && Encodable(j)
    requires Serialize(i) == Serialize(j) + rest
    ensures rest == [] && i == j
  {
    ParseSerialize(j, rest);
    ParseSerialize(i, []);
    assert Serialize(i) + [] == Serialize(i);
  }

  /** Every proper prefix of an encoding, a truncated field included, is
      rejected. */
  lemma RejectsTruncation(i: NameRegistryInstruction, k: nat)
    requires Encodable(i) && k < |Serialize(i)|
    ensures TryFromSlice(Serialize(i)[..k]).Err?
  {
    var s := Serialize(i);
    var r := TryFromSlice(s[..k]);
    if r.Ok? {
      assert s[..k] == Serialize(r.value);
      assert s == Serialize(r.value) + s[k..];
      PrefixFree(i, r.value, s[k..]);
    }
  }

  /** Any input whose first byte is not a variant index is rejected. */
  lemma RejectsUnknownVariant(s: seq<u8>)
    requires |s| > 0 && s[0] > 3
    ensures TryFromSlice(s) == Err(InvalidVariant(s[0]))
  {
  }
}
