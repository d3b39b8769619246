/** Names that several services share. */
module ChainTypes {

  /** A transaction signature, by its base58 text. */
  datatype Signature = Signature(text: string)

  /** The address of an on-chain program, by its text. */
  datatype ProgramId = ProgramId(text: string)
}
