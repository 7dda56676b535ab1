/** Client-side instruction builders: each turns its keys and optional keys
    into an `Instruction` with a fixed account-list shape and Borsh data. */
module Builders {
  import opened Primitives
  import opened Solana
  import Codec = InstructionCodec
  import Borsh

  /** The read-only, non-signing default-key meta `create` puts in an
      optional slot that was not supplied. */
  const Placeholder: AccountMeta := Readonly(DefaultKey, false)

  /** The meta of an optional account: the key when present (signing as
      `signer` says), the placeholder when absent. */
  function OptionalReadonly(k: Option<Pubkey>, signer: bool): AccountMeta {
    match k
    case Some(key) => Readonly(key, signer)
    case None => Placeholder
  }

  /** The state of an optional slot as documented: read-only, holding the key
      or the default key, and signing exactly when the key was supplied and
      the role is a signing one. */
  predicate OptionalSlot(m: AccountMeta, k: Option<Pubkey>, signsWhenPresent: bool) {
    && !m.isWritable
    && m.pubkey == KeyOrDefault(k)
    && (m.isSigner <==> k.Some? && signsWhenPresent)
  }

  /** The flags the enum's documentation gives the seven `Create` accounts:
      0 `[]` system program, 1 `[writable, signer]` payer, 2 `[writable]` name
      account, 3 `[]` owner, 4 `[signer]` class, 5 `[]` parent, 6 `[signer]`
      parent owner (4-6 optional). */
  predicate CreateAccountsAsDocumented(accounts: seq<AccountMeta>) {
    && |accounts| == 7
    && !accounts[0].isWritable && !accounts[0].isSigner
    && accounts[1].isWritable && accounts[1].isSigner
    && accounts[2].isWritable && !accounts[2].isSigner
    && !accounts[3].isWritable && !accounts[3].isSigner
    && !accounts[4].isWritable
    && !accounts[5].isWritable && !accounts[5].isSigner
    && !accounts[6].isWritable
  }

  /** `create`, as written: it serialises whatever instruction it is given,
      and marks the name account as a signer. */
  function Create(
    programId: Pubkey,
    instructionData: Codec.NameRegistryInstruction,
    nameAccount: Pubkey,
    nameOwner: Pubkey,
    payer: Pubkey,
    classOpt: Option<Pubkey>,
    parentOpt: Option<Pubkey>,
    parentOwnerOpt: Option<Pubkey>
  ): (r: Result<Instruction, ProgramError>)
    requires Codec.Encodable(instructionData)
    ensures r.Ok? && r.value.programId == programId
    ensures Codec.TryFromSlice(r.value.data) == Ok(instructionData)
    ensures |r.value.accounts| == 7
    ensures r.value.accounts[0] == Readonly(SystemProgramId, false)
    ensures r.value.accounts[1] == Writable(payer, true)
    ensures r.value.accounts[2] == Writable(nameAccount, true)
    ensures r.value.accounts[3] == Readonly(nameOwner, false)
    ensures OptionalSlot(r.value.accounts[4], classOpt, true)
    ensures OptionalSlot(r.value.accounts[5], parentOpt, false)
    ensures OptionalSlot(r.value.accounts[6], parentOwnerOpt, true)
  {
    Codec.DecodeEncode(instructionData);
    var data := Codec.Serialize(instructionData);
    var accounts := [
      Readonly(SystemProgramId, false),
      Writable(payer, true),
      Writable(nameAccount, true),
      Readonly(nameOwner, false),
      OptionalReadonly(classOpt, true),
      OptionalReadonly(parentOpt, false),
      OptionalReadonly(parentOwnerOpt, true)
    ];
    Ok(Instruction(programId, accounts, data))
  }

  /** `create` with the name account writable but not signing, as the enum's
      documentation lists it. */
  function CreateIntended(
    programId: Pubkey,
    instructionData: Codec.NameRegistryInstruction,
    nameAccount: Pubkey,
    nameOwner: Pubkey,
    payer: Pubkey,
    classOpt: Option<Pubkey>,
    parentOpt: Option<Pubkey>,
    parentOwnerOpt: Option<Pubkey>
  ): (r: Result<Instruction, ProgramError>)
    requires Codec.Encodable(instructionData)
    ensures r.Ok? && r.value.programId == programId
    ensures Codec.TryFromSlice(r.value.data) == Ok(instructionData)
    ensures CreateAccountsAsDocumented(r.value.accounts)
    ensures r.value.accounts[2] == Writable(nameAccount, false)
    ensures forall i :: 0 <= i < 7 && i != 2 ==>
      r.value.accounts[i] == Create(programId, instructionData, nameAccount, nameOwner, payer, classOpt, parentOpt, parentOwnerOpt).value.accounts[i]
  {
    var asWritten := Create(programId, instructionData, nameAccount, nameOwner, payer, classOpt, parentOpt, parentOwnerOpt).value;
    Ok(asWritten.(accounts := asWritten.accounts[2 := Writable(nameAccount, false)]))
  }

  /** `update`: an `Update` instruction for the record at `nameAccount`,
      signed by whichever authority `signer` holds; the parent record is
      appended only when given. */
  function Update(
    programId: Pubkey,
    offset: u32,
    data: seq<u8>,
    nameAccount: Pubkey,
    signer: Pubkey,
    parentOpt: Option<Pubkey>
  ): (r: Result<Instruction, ProgramError>)
    requires |data| < Borsh.U32Bound
    ensures r.Ok? && r.value.programId == programId
    ensures Codec.TryFromSlice(r.value.data) == Ok(Codec.Update(offset, data))
    ensures |r.value.accounts| == if parentOpt.Some? then 3 else 2
    ensures r.value.accounts[0] == Writable(nameAccount, false)
    ensures r.value.accounts[1] == Writable(signer, true)
    ensures parentOpt.Some? ==> r.value.accounts[2] == Readonly(parentOpt.value, false)
  {
    var instructionData := Codec.Update(offset, data);
    Codec.DecodeEncode(instructionData);
    var accounts := [Writable(nameAccount, false), Writable(signer, true)];
    var accounts := if parentOpt.Some? then accounts + [Readonly(parentOpt.value, false)] else accounts;
    Ok(Instruction(programId, accounts, Codec.Serialize(instructionData)))
  }

  /** `transfer`: a `Transfer` instruction handing the record to `newOwner`,
      signed by the current owner; the parent record is appended only when
      given. */
  function Transfer(
    programId: Pubkey,
    newOwner: Pubkey,
    nameAccount: Pubkey,
    currentOwner: Pubkey,
    parentOpt: Option<Pubkey>
  ): (r: Result<Instruction, ProgramError>)
    ensures r.Ok? && r.value.programId == programId
    ensures Codec.TryFromSlice(r.value.data) == Ok(Codec.Transfer(newOwner))
    ensures |r.value.data| == 1 + PubkeyLen
    ensures |r.value.accounts| == if parentOpt.Some? then 3 else 2
    ensures r.value.accounts[0] == Writable(nameAccount, false)
    ensures r.value.accounts[1] == Readonly(currentOwner, true)
    ensures parentOpt.Some? ==> r.value.accounts[2] == Readonly(parentOpt.value, false)
  {
    var instructionData := Codec.Transfer(newOwner);
    Codec.DecodeEncode(instructionData);
    var accounts := [Writable(nameAccount, false), Readonly(currentOwner, true)];
    var accounts := if parentOpt.Some? then accounts + [Readonly(parentOpt.value, false)] else accounts;
    Ok(Instruction(programId, accounts, Codec.Serialize(instructionData)))
  }

  /** `delete`: a `Delete` instruction closing the record and sending its
      lamports to `refundTarget`, signed by the owner. */
  function Delete(
    programId: Pubkey,
    nameAccount: Pubkey,
    owner: Pubkey,
    refundTarget: Pubkey
  ): (r: Result<Instruction, ProgramError>)
    ensures r.Ok? && r.value.programId == programId
    ensures Codec.TryFromSlice(r.value.data) == Ok(Codec.Delete)
    ensures r.value.data == [3]
    ensures r.value.accounts == [Writable(nameAccount, false), Readonly(owner, true), Writable(refundTarget, false)]
  {
    Codec.DecodeEncode(Codec.Delete);
    Ok(Instruction(programId, [Writable(nameAccount, false), Readonly(owner, true), Writable(refundTarget, false)],
                   Codec.Serialize(Codec.Delete)))
  }

  // ---------------------------------------------------------------------
  // Properties relating the builders to each other and to the documentation

  /** `create` as written asks for the name account's signature, which the
      documentation does not: for every input its account list fails the
      documented flags. */
  lemma CreateDeviatesFromDocumentation(
    programId: Pubkey, instructionData: Codec.NameRegistryInstruction, nameAccount: Pubkey,
    nameOwner: Pubkey, payer: Pubkey, classOpt: Option<Pubkey>, parentOpt: Option<Pubkey>,
    parentOwnerOpt: Option<Pubkey>)
    requires Codec.Encodable(instructionData)
    ensures !CreateAccountsAsDocumented(
      Create(programId, instructionData, nameAccount, nameOwner, payer, classOpt, parentOpt, parentOwnerOpt).value.accounts)
  {
  }

  /** `create` does not check the variant it is handed: a `Delete` payload is
      encoded as the single byte 3. */
  lemma CreateEncodesAnyVariant(
    programId: Pubkey, nameAccount: Pubkey, nameOwner: Pubkey, payer: Pubkey)
    ensures Create(programId, Codec.Delete, nameAccount, nameOwner, payer, None, None, None).value.data == [3]
  {
  }

  /** Unlike seed derivation, `create` tells an absent class from the all-zero
      key: the slot holds the same key but only a supplied class signs. */
  lemma CreateDistinguishesAbsentFromDefaultClass(
    programId: Pubkey, instructionData: Codec.NameRegistryInstruction, nameAccount: Pubkey,
    nameOwner: Pubkey, payer: Pubkey, parentOpt: Option<Pubkey>, parentOwnerOpt: Option<Pubkey>)
    requires Codec.Encodable(instructionData)
    ensures var absent := Create(programId, instructionData, nameAccount, nameOwner, payer, None, parentOpt, parentOwnerOpt).value;
            var zero := Create(programId, instructionData, nameAccount, nameOwner, payer, Some(DefaultKey), parentOpt, parentOwnerOpt).value;
            absent.accounts[4].pubkey == zero.accounts[4].pubkey && absent != zero
  {
  }

  /** The instructions built by different builders never carry the same data:
      the first byte names the operation. */
  lemma BuildersDisagreeOnTag(
    programId: Pubkey, offset: u32, data: seq<u8>, newOwner: Pubkey, nameAccount: Pubkey,
    authority: Pubkey, refundTarget: Pubkey, parentOpt: Option<Pubkey>)
    requires |data| < Borsh.U32Bound
    ensures Update(programId, offset, data, nameAccount, authority, parentOpt).value.data[0] == 1
    ensures Transfer(programId, newOwner, nameAccount, authority, parentOpt).value.data[0] == 2
    ensures Delete(programId, nameAccount, authority, refundTarget).value.data[0] == 3
  {
  }
}
