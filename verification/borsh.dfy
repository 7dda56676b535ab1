/** The Borsh binary encoding, for the field types the registry uses:
    little-endian `u8`/`u32`/`u64`, `Vec<u8>` as a `u32` length followed by
    the bytes, and `Pubkey` as its 32 raw bytes. Each parser consumes a
    prefix of its input and returns the value with the unconsumed rest. */
module Borsh {
  import opened Primitives
  import opened Solana

  /** Why an encoding or a decoding failed. */
  datatype Error =
    | UnexpectedEof           // the input ended inside a field
    | InvalidVariant(tag: u8) // an enum tag with no variant
    | TrailingBytes           // `try_from_slice` left bytes unread
    | LengthOverflow          // a `Vec` too long for its `u32` length prefix

  /** A parsed value together with the bytes after it. */
  type Parsed<T> = Result<(T, seq<u8>), Error>

  /** Exclusive upper bound of a `u32`, and so of a `Vec` length. */
  const U32Bound: nat := 0x1_0000_0000

  function Pow256(n: nat): (p: nat)
    ensures p > 0
  {
    if n == 0 then 1 else 256 * Pow256(n - 1)
  }

  /** The `n`-byte little-endian form of `x`. */
  function LeBytes(x: nat, n: nat): (r: seq<u8>)
    requires x < Pow256(n)
    ensures |r| == n
  {
    if n == 0 then [] else [(x % 256) as u8] + LeBytes(x / 256, n - 1)
  }

  /** The number whose little-endian form is `s`. */
  function FromLe(s: seq<u8>): (x: nat)
    ensures x < Pow256(|s|)
  {
    if |s| == 0 then 0 else s[0] as nat + 256 * FromLe(s[1..])
  }

  lemma {:induction false} FromLeOfLeBytes(x: nat, n: nat)
    requires x < Pow256(n)
    ensures FromLe(LeBytes(x, n)) == x
  {
    if n > 0 {
      var r := LeBytes(x, n);
      assert r[1..] == LeBytes(x / 256, n - 1);
      FromLeOfLeBytes(x / 256, n - 1);
    }
  }

  lemma {:induction false} LeBytesOfFromLe(s: seq<u8>)
    ensures LeBytes(FromLe(s), |s|) == s
  {
    if |s| > 0 {
      var x := FromLe(s);
      assert x % 256 == s[0] as nat && x / 256 == FromLe(s[1..]);
      LeBytesOfFromLe(s[1..]);
      assert s == [s[0]] + s[1..];
    }
  }

  function EncodeU32(x: u32): (r: seq<u8>)
    ensures |r| == 4
  {
    LeBytes(x as nat, 4)
  }

  function EncodeU64(x: u64): (r: seq<u8>)
    ensures |r| == 8
  {
    LeBytes(x as nat, 8)
  }

  /** Borsh `Vec<u8>`: a `u32` length, then the bytes; defined only for
      vectors whose length fits the prefix. */
  function EncodeBytes(v: seq<u8>): (r: seq<u8>)
    requires |v| < U32Bound
    ensures |r| == 4 + |v|
  {
    EncodeU32(|v| as u32) + v
  }

  function ParseU8(s: seq<u8>): (r: Parsed<u8>)
    ensures r.Ok? <==> |s| >= 1
    ensures r.Ok? ==> s == [r.value.0] + r.value.1
    ensures r.Err? ==> r.error == UnexpectedEof
  {
    if |s| < 1 then Err(UnexpectedEof) else Ok((s[0], s[1..]))
  }

  function ParseU32(s: seq<u8>): (r: Parsed<u32>)
    ensures r.Ok? <==> |s| >= 4
    ensures r.Ok? ==> s == EncodeU32(r.value.0) + r.value.1
    ensures r.Err? ==> r.error == UnexpectedEof
  {
    if |s| < 4 then Err(UnexpectedEof)
    else
      LeBytesOfFromLe(s[..4]);
      Ok((FromLe(s[..4]) as u32, s[4..]))
  }

  function ParseU64(s: seq<u8>): (r: Parsed<u64>)
    ensures r.Ok? <==> |s| >= 8
    ensures r.Ok? ==> s == EncodeU64(r.value.0) + r.value.1
    ensures r.Err? ==> r.error == UnexpectedEof
  {
    if |s| < 8 then Err(UnexpectedEof)
    else
      LeBytesOfFromLe(s[..8]);
      Ok((FromLe(s[..8]) as u64, s[8..]))
  }

  /** A `Pubkey` is read as its 32 raw bytes. */
  function ParseKey(s: seq<u8>): (r: Parsed<Pubkey>)
    ensures r.Ok? <==> |s| >= PubkeyLen
    ensures r.Ok? ==> s == r.value.0 + r.value.1
    ensures r.Err? ==> r.error == UnexpectedEof
  {
    if |s| < PubkeyLen then Err(UnexpectedEof) else Ok((s[..PubkeyLen], s[PubkeyLen..]))
  }

  /** A `Vec<u8>`: the length prefix, then exactly that many bytes. */
  function ParseBytes(s: seq<u8>): (r: Parsed<seq<u8>>)
    ensures r.Ok? ==> |r.value.0| < U32Bound && s == EncodeBytes(r.value.0) + r.value.1
    ensures r.Ok? <==> |s| >= 4 && |s| - 4 >= FromLe(s[..4])
    ensures r.Err? ==> r.error == UnexpectedEof
  {
    var (len, rest) :- ParseU32(s);
    if |rest| < len as nat then Err(UnexpectedEof)
    else
      var v := rest[..len];
      assert rest == v + rest[len..];
      Ok((v, rest[len..]))
  }

  lemma ParseU8Encoded(x: u8, rest: seq<u8>)
    ensures ParseU8([x] + rest) == Ok((x, rest))
  {
  }

  lemma ParseU32Encoded(x: u32, rest: seq<u8>)
    ensures ParseU32(EncodeU32(x) + rest) == Ok((x, rest))
  {
    var s := EncodeU32(x) + rest;
    assert s[..4] == EncodeU32(x) && s[4..] == rest;
    FromLeOfLeBytes(x as nat, 4);
  }

  lemma ParseU64Encoded(x: u64, rest: seq<u8>)
    ensures ParseU64(EncodeU64(x) + rest) == Ok((x, rest))
  {
    var s := EncodeU64(x) + rest;
    assert s[..8] == EncodeU64(x) && s[8..] == rest;
    FromLeOfLeBytes(x as nat, 8);
  }

  lemma ParseKeyEncoded(k: Pubkey, rest: seq<u8>)
    ensures ParseKey(k + rest) == Ok((k, rest))
  {
  }

  lemma ParseBytesEncoded(v: seq<u8>, rest: seq<u8>)
    requires |v| < U32Bound
    ensures ParseBytes(EncodeBytes(v) + rest) == Ok((v, rest))
  {
    var s := EncodeBytes(v) + rest;
    assert s == EncodeU32(|v| as u32) + (v + rest);
    ParseU32Encoded(|v| as u32, v + rest);
    assert (v + rest)[..|v|] == v && (v + rest)[|v|..] == rest;
  }
}
