/** Accounts and tokens, shared by the contracts. */
module Tokens {

  type AccountId = string

  /** `crates/primitives/token-id`: fungible, non-fungible, multi- and intents-native tokens. */
  datatype TokenId =
    | Nep141(contractId: AccountId)
    | Nep171(contractId: AccountId, nftId: string)
    | Nep245(contractId: AccountId, mtId: string)
    | Imt(minterId: AccountId, imtId: string)
}
