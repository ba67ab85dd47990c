/**
 * The parts of the Wallet Standard UI library that the provider and the menu
 * consume: wallets, their accounts, and three helper functions. The library's
 * own definitions are not part of this model; each helper is assumed to be
 * the definition given here, and every property proved about the provider and
 * the menu rests on these assumptions.
 */
module WalletStandard {

  /**
   * A `UiWalletAccount`: the address it signs with, the name of the wallet that
   * exposes it, and the rest of the object (here its `label`), which may differ
   * between a stale copy of an account and the live one.
   */
  datatype Account = Account(walletName: string, address: string, accountLabel: string)

  /** A `UiWallet`: its name, its accounts in order, and the features it supports. */
  datatype Wallet = Wallet(name: string, accounts: seq<Account>, features: seq<string>)

  /** `getUiWalletAccountStorageKey`: the wallet name and the address joined by ':'. */
  function StorageKey(account: Account): string
  {
    account.walletName + ":" + account.address
  }

  /** `uiWalletAccountsAreSame`: the same address in the same wallet. */
  predicate AccountsAreSame(a: Account, b: Account)
  {
    a.walletName == b.walletName && a.address == b.address
  }

  /** `uiWalletAccountBelongsToUiWallet`: the account was exposed by a wallet of that name. */
  predicate BelongsToWallet(account: Account, wallet: Wallet)
  {
    account.walletName == wallet.name
  }

  /** Assumed of the library: every account a wallet lists records that wallet as its owner. */
  ghost predicate WellFormed(wallets: seq<Wallet>)
  {
    forall w, a :: w in wallets && a in w.accounts ==> a.walletName == w.name
  }
}
