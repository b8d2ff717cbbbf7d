/** `contracts/wallet/src/state.rs`: who may act for a wallet. */
module WalletState {
  import opened Tokens

  datatype Access = Access(signatureEnabled: bool, extensions: set<AccountId>) {
    /** A wallet deployed by mistake without signatures and without extensions takes signatures. */
    predicate IsSignatureAllowed() {
      signatureEnabled || extensions == {}
    }

    /** The condition of `check_lockout`. */
    predicate PassesLockoutCheck() {
      signatureEnabled || extensions != {}
    }
  }
}
