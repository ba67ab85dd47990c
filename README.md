# Wallet-account selection store, in Dafny

This project models the state logic of a Solana wallet-connection front end:

- **`SolanaWalletProvider`** keeps three pieces of state. One is a session flag recording whether the user has explicitly chosen an account (`wasSetterInvoked`). One is the selected account, which may be a stale copy of a live account. One is a single local-storage slot that remembers the choice across sessions.
  - The provider restores a saved choice while the flag is unset. It does this on mount and again each time the wallet list changes.
  - Its public setter applies a new choice. The setter saves the choice's storage key, or removes the slot when there is no choice.
  - It resolves the possibly stale selection against the live wallet list. The result is either the same account or, failing that, the first account of the selection's wallet.
  - It clears a selection that resolves to nothing.
- **`ConnectWalletMenu`** splits the wallets into connectable and unconnectable ones. It also finds the wallet under which the selected account is shown, and guards the disconnect callback.

Files:

- `wrappers.dfy`: `Option`.
- `seqs.dfy`: `Find` and `Filter`, the array methods `find` and `filter`, with their first-match, order and partition lemmas.
- `strings.dfy`: `Split` and `Join`.
- `wallet_standard.dfy`: wallets, accounts, and the three Wallet Standard helper functions.
- `wallet_provider.dfy`: the provider. It holds the pure restore and resolve searches, the class `WalletSelectionStore` (the setter and the two effects) and two session scenarios.
- `connect_wallet_menu.dfy`: the menu's partition, lookup and disconnect callback.

The Wallet Standard helpers are library code that is not part of this model. Each is assumed to be the definition below, and every property below rests on these assumptions:

- `getUiWalletAccountStorageKey` is `walletName + ":" + address`.
- `uiWalletAccountsAreSame` means the same wallet name and the same address.
- `uiWalletAccountBelongsToUiWallet` means the account's wallet name equals the wallet's name.
- `WellFormed` assumes that every account a wallet lists names that wallet. Some lemmas require it.

Behaviour worth noting:

- **Reconciliation leaves storage alone.** It clears the selection through the internal state setter (`solana-wallet-provider.tsx:93`). That setter neither removes the saved value nor sets the flag. The source's comment at `solana-wallet-provider.tsx:90-91` speaks only of clearing the selected wallet. `SelectThenWalletDisappears` shows the saved value `"Phantom:A1"` surviving the wallet's disappearance.
- **Restoration reads only the first two fields.** It takes the first two `':'`-separated fields (`:28`) and ignores any further ones, so `"a:b:c"` selects wallet `a`, address `b` (`SavedFieldsFirstTwo`). One consequence: with well-formed wallets, an account whose wallet name contains `':'` is never restored (`ColonInWalletNameNeverRestored`; `ColonInWalletNameIsNotRestored` is an instance).
- **Restoration keeps searching after a name match.** When the first wallet with the saved name lacks the saved address, the search goes on to later wallets of that name (`FindSavedIsFirst`).
- **A same-named wallet can win by fallback.** Resolution stops at the first wallet that either lists the same account or owns the selection and has accounts. So an earlier wallet of the same name wins by fallback over a later one that lists the exact account (`ResolveIsFirstQualifying`). This rests on the assumption that "belongs" compares wallet names, as well as on the code at `:81`.
- **Restoration has no fallback to another account.** The doc comment at `solana-wallet-provider.tsx:43-46` says a future session returns that same account "or at least one from the same brand of wallet". Restoration (`:32-40`) returns only an account with the saved address: with `"Phantom:A1"` saved and Phantom listing only `A2`, nothing is restored (`RestoreHasNoWalletFallback`). The same-brand fallback happens only inside a session, when a selection is resolved (`:81-85`).
- **The dialog's disconnect callback never clears.** The callback at `connect-wallet-menu.tsx:114-118` is the same text as the dropdown's at :57-61, but it is created only in the branch reached when there is no selection (:73), so its guard `selectedWalletAccount && …` is always false there. Only the dropdown's copy can clear a selection (`ConnectWalletMenu.OnDisconnect`).

## Model

| member | source | states |
|---|---|---|
| Strings.Split | src/components/solana/solana-wallet-provider.tsx:28 | `split(':')` yields at least one piece and no piece contains the separator |
| Strings.JoinSplit | src/components/solana/solana-wallet-provider.tsx:28 | splitting loses nothing: rejoining the pieces gives back the saved value |
| WalletProvider.SavedFields | src/components/solana/solana-wallet-provider.tsx:28 | the destructured name and address contain no ':' |
| WalletProvider.SavedFieldsFirstTwo | src/components/solana/solana-wallet-provider.tsx:28 | with three or more fields, only the first two are used: `"a:b:c"` gives name `a` and address `b` |
| WalletProvider.SavedFieldsTwo | src/components/solana/solana-wallet-provider.tsx:28 | a value `name:address` (neither part containing ':') yields exactly that name and address |
| WalletProvider.FindSaved | src/components/solana/solana-wallet-provider.tsx:32-40 | a found account has the saved address and is listed by a wallet with the saved name; nothing is found exactly when no wallet of that name lists that address |
| WalletProvider.FindSavedIsFirst | src/components/solana/solana-wallet-provider.tsx:32-40 | the account found is the first match in wallet order, then account order |
| WalletProvider.SavedWalletAccount | src/components/solana/solana-wallet-provider.tsx:18-41 | nothing after the setter has run; nothing for an absent or empty slot or an empty name or address field; otherwise any result has the saved address and comes from a wallet with the saved name |
| WalletProvider.RestoreAfterSave | src/components/solana/solana-wallet-provider.tsx:24-40 | restoring the storage key the setter writes finds an account that is the same as the saved one, when that account is still listed and its name and address are non-empty and free of ':' |
| WalletProvider.ColonInWalletNameIsNotRestored | src/components/solana/solana-wallet-provider.tsx:28-33 | an instance of `ColonInWalletNameNeverRestored`: an account of a wallet named `Wallet:Pro` is not restored from its own storage key |
| WalletProvider.ColonInWalletNameNeverRestored | src/components/solana/solana-wallet-provider.tsx:28-37 | for well-formed wallets, a restored account never has a wallet name containing ':' |
| WalletProvider.RestoreHasNoWalletFallback | src/components/solana/solana-wallet-provider.tsx:32-40 | with `"Phantom:A1"` saved and Phantom listing only `A2`, restoration finds nothing: it does not fall back to another account of the wallet |
| WalletProvider.ResolveIn | src/components/solana/solana-wallet-provider.tsx:75-86 | a resolved account is always one listed by a current wallet |
| WalletProvider.ResolveWalletAccount | src/components/solana/solana-wallet-provider.tsx:73-88 | nothing without a selection; otherwise any result is an account listed by a current wallet |
| WalletProvider.ResolveIsFirstQualifying | src/components/solana/solana-wallet-provider.tsx:75-86 | resolution yields nothing exactly when no wallet lists the same account or owns the selection with an account; otherwise it takes the first such wallet and yields that wallet's first same account, or its first account when it has no same account |
| WalletProvider.ResolveKeepsWalletName | src/components/solana/solana-wallet-provider.tsx:81-85 | for well-formed wallets, the resolved account belongs to the selection's own wallet |
| WalletProvider.ResolveNoneIffWalletGone | src/components/solana/solana-wallet-provider.tsx:73-88 | for well-formed wallets, a selection resolves to nothing exactly when no wallet with its name is listed with at least one account |
| WalletProvider.ResolveIsStable | src/components/solana/solana-wallet-provider.tsx:75-86 | for well-formed wallets, resolving the resolved account gives back that same account |
| WalletProvider.WalletSelectionStore.constructor | src/components/solana/solana-wallet-provider.tsx:49-52 | on mount, the selection is what restoration finds for the current flag, slot and wallets |
| WalletProvider.WalletSelectionStore.SetSelectedWalletAccount | src/components/solana/solana-wallet-provider.tsx:53-66 | the flag is set; the selection is the literal value or the updater applied to the previous selection; the slot holds the new account's storage key when there is one and it is non-empty, and is removed otherwise; no other storage key changes |
| WalletProvider.WalletSelectionStore.OnWalletsChanged | src/components/solana/solana-wallet-provider.tsx:67-72 | a restored account replaces the selection, and otherwise it is kept; storage and the flag are unchanged; once the flag is set the selection never changes |
| WalletProvider.WalletSelectionStore.Reconcile | src/components/solana/solana-wallet-provider.tsx:89-95 | a selection that resolves to nothing is cleared, and any other selection is kept; storage and the flag are unchanged; afterwards any selection resolves to an account |
| WalletProvider.ExplicitChoiceSticks | src/components/solana/solana-wallet-provider.tsx:53-72 | after an explicit choice, for any later sequence of wallet lists followed by reconciliation, the selection is the choice or nothing and the slot keeps the choice's key |
| WalletProvider.SelectThenWalletDisappears | src/components/solana/solana-wallet-provider.tsx:89-95 | choosing account A1 of the only wallet, Phantom, saves `"Phantom:A1"` and exposes A1; after the wallet disappears the selection is nothing and `"Phantom:A1"` is still saved |
| ConnectWalletMenu.StandardWallets | src/components/wallet-ui/connect-wallet-menu.tsx:31-33 | exactly the wallets with both `standard:connect` and `standard:disconnect` |
| ConnectWalletMenu.UnconnectableWallets | src/components/wallet-ui/connect-wallet-menu.tsx:34-36 | exactly the wallets missing at least one of the two features |
| ConnectWalletMenu.WalletsPartition | src/components/wallet-ui/connect-wallet-menu.tsx:31-36 | the two lists partition the wallets: lengths add up, the multisets add up, and each wallet is in exactly one list |
| ConnectWalletMenu.WalletsKeepOrder | src/components/wallet-ui/connect-wallet-menu.tsx:31-36 | both lists keep the original order, because each distributes over concatenation |
| ConnectWalletMenu.SelectedWallet | src/components/wallet-ui/connect-wallet-menu.tsx:43-45 | a found wallet is listed and has an account with the selected address; nothing is found exactly when no wallet has such an account |
| ConnectWalletMenu.SelectedWalletIsFirst | src/components/wallet-ui/connect-wallet-menu.tsx:43-45 | when wallet `i` is the first to list an account with the selected address, that wallet is the one found |
| ConnectWalletMenu.OwnerIsSelectedWallet | src/components/wallet-ui/connect-wallet-menu.tsx:43-61 | the wallet owning the selection is the one found, when no earlier wallet has that address; disconnecting it passes the guard |
| ConnectWalletMenu.SharedAddressShowsOtherWallet | src/components/wallet-ui/connect-wallet-menu.tsx:43-61 | when two wallets list the same address, the account of the second is found under the first, and disconnecting the first does not pass the guard |
| ConnectWalletMenu.OnDisconnect | src/components/wallet-ui/connect-wallet-menu.tsx:57-61 | when the shown account belongs to the disconnected wallet, the setter clears the selection, sets the flag and removes the slot; otherwise nothing changes |

## Left out

- React scheduling is not modelled: lazy `useState` initialisation, effect and memo dependency tracking, re-render timing, and Strict Mode's double invocation of updaters. Each effect is a method the caller invokes after the wallet list or the selection changes. `walletAccount` is a function of the current state.
- `localStorage` is a `map<string, string>` held by the store. Storage exceptions are not modelled. The `typeof` test at `solana-wallet-provider.tsx:25` always holds for what `getItem` returns, so the slot is an `Option<string>`.
- `useWallets` discovery is not modelled: the wallet list is a parameter. The Wallet Standard helpers are given the definitions stated above, and their real implementations are not part of this model.
- The flag is module-level in the source. It is a field of the store, and the constructor takes its value to stand for a provider mounted later in the same session.
- The menu gets its selection and setter from `useSolanaWallet` in another library. `ConnectWalletMenu.OnDisconnect` assumes that source is this provider's exposed account and public setter. The dialog's copy of the callback at `connect-wallet-menu.tsx:114-118` is not modelled separately: that branch renders only when there is no selection (the component returns at :42-71 whenever there is one), so its guard at :115 never holds and it never clears anything.
- The menu's rendering is not modelled: dialogs, dropdowns, the `open`, `dialogOpen` and `showInfo` toggles, and the error dialog. The non-null assertion on `selectedWallet` at :56 is also left out.
- The identity of the context value at `solana-wallet-provider.tsx:97` is not modelled, and neither are the layout files.
