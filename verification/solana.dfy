/** The host-runtime types the registry is written against: 32-byte public
    keys, account metas, instructions and the runtime's error type. */
module Solana {
  import opened Primitives

  /** Length in bytes of a public key. */
  const PubkeyLen: nat := 32

  /** `n` zero bytes. */
  function Zeros(n: nat): (r: seq<u8>)
    ensures |r| == n
    ensures forall i :: 0 <= i < n ==> r[i] == 0
  {
    if n == 0 then [] else [0] + Zeros(n - 1)
  }

  /** A public key: exactly 32 raw bytes. */
  type Pubkey = s: seq<u8> | |s| == PubkeyLen witness Zeros(PubkeyLen)

  /** `Pubkey::default()`: the all-zero key. */
  const DefaultKey: Pubkey := Zeros(PubkeyLen)

  /** `system_program::id()`. Its base58 form is thirty-two '1' digits, which
      decodes to thirty-two zero bytes, so it coincides with `DefaultKey`. */
  const SystemProgramId: Pubkey := DefaultKey

  /** `Option<Pubkey>::unwrap_or_default()`. */
  function KeyOrDefault(k: Option<Pubkey>): Pubkey {
    k.UnwrapOr(DefaultKey)
  }

  /** One entry of an instruction's account list. */
  datatype AccountMeta = AccountMeta(pubkey: Pubkey, isSigner: bool, isWritable: bool)

  /** `AccountMeta::new(key, is_signer)`: a writable account. */
  function Writable(key: Pubkey, isSigner: bool): AccountMeta {
    AccountMeta(key, isSigner, true)
  }

  /** `AccountMeta::new_readonly(key, is_signer)`: a read-only account. */
  function Readonly(key: Pubkey, isSigner: bool): AccountMeta {
    AccountMeta(key, isSigner, false)
  }

  /** An instruction: the program to invoke, its ordered accounts and its
      opaque data bytes. */
  datatype Instruction = Instruction(programId: Pubkey, accounts: seq<AccountMeta>, data: seq<u8>)

  /** The runtime error kinds the modelled code can produce. */
  datatype ProgramError = InvalidAccountData | Custom(code: u32)
}
