/**
 * The logic inside `ConnectWalletMenu`: which wallets can be connected, which
 * wallet the selected account is shown under, and when a disconnect clears the
 * selection. The dialogs and dropdowns around it are not modelled.
 */
module ConnectWalletMenu {
  import opened Wrappers
  import opened WalletStandard
  import Seqs
  import WalletProvider

  /** The feature names of the Wallet Standard's `StandardConnect` and `StandardDisconnect`. */
  const StandardConnect: string := "standard:connect"
  const StandardDisconnect: string := "standard:disconnect"

  /** A wallet the menu can connect to: it supports both connecting and disconnecting. */
  predicate IsConnectable(wallet: Wallet)
  {
    StandardConnect in wallet.features && StandardDisconnect in wallet.features
  }

  /** A wallet that lacks at least one of the two features. */
  predicate IsUnconnectable(wallet: Wallet)
  {
    StandardConnect !in wallet.features || StandardDisconnect !in wallet.features
  }

  /** `standardWallets`: exactly the connectable wallets. */
  function StandardWallets(wallets: seq<Wallet>): (r: seq<Wallet>)
    ensures forall w :: w in r ==> w in wallets && IsConnectable(w)
    ensures forall w :: w in wallets && IsConnectable(w) ==> w in r
  {
    Seqs.Filter(wallets, IsConnectable)
  }

  /** `unconnectableWallets`: exactly the wallets missing a feature. */
  function UnconnectableWallets(wallets: seq<Wallet>): (r: seq<Wallet>)
    ensures forall w :: w in r ==> w in wallets && !IsConnectable(w)
    ensures forall w :: w in wallets && !IsConnectable(w) ==> w in r
  {
    Seqs.Filter(wallets, IsUnconnectable)
  }

  /**
   * The two lists partition the wallets: every wallet is in exactly one of them,
   * each occurrence is counted once, and their lengths add up to the total.
   */
  lemma WalletsPartition(wallets: seq<Wallet>)
    ensures |StandardWallets(wallets)| + |UnconnectableWallets(wallets)| == |wallets|
    ensures multiset(StandardWallets(wallets)) + multiset(UnconnectableWallets(wallets)) == multiset(wallets)
    ensures forall w :: w in wallets ==> (w in StandardWallets(wallets) <==> w !in UnconnectableWallets(wallets))
  {
    Seqs.FilterComplement(wallets, IsConnectable, IsUnconnectable);
  }

  /** Both lists keep the wallets' original order: each distributes over concatenation. */
  lemma WalletsKeepOrder(first: seq<Wallet>, second: seq<Wallet>)
    ensures StandardWallets(first + second) == StandardWallets(first) + StandardWallets(second)
    ensures UnconnectableWallets(first + second) == UnconnectableWallets(first) + UnconnectableWallets(second)
  {
    Seqs.FilterConcat(first, second, IsConnectable);
    Seqs.FilterConcat(first, second, IsUnconnectable);
  }

  /** `wallet.accounts.some(account => account.address === address)`. */
  predicate HasAccountWithAddress(wallet: Wallet, address: string)
  {
    exists a :: a in wallet.accounts && a.address == address
  }

  /** `selectedWallet`: the first wallet that lists an account with the selected address. */
  function SelectedWallet(wallets: seq<Wallet>, selected: Account): (r: Option<Wallet>)
    ensures r.Some? ==> r.value in wallets && HasAccountWithAddress(r.value, selected.address)
    ensures r.None? <==> forall w :: w in wallets ==> !HasAccountWithAddress(w, selected.address)
  {
    Seqs.Find(wallets, (w: Wallet) => HasAccountWithAddress(w, selected.address))
  }

  /** `selectedWallet` is the first wallet, in order, that lists an account with the selected address. */
  lemma {:induction false} SelectedWalletIsFirst(wallets: seq<Wallet>, selected: Account, i: nat)
    requires i < |wallets| && HasAccountWithAddress(wallets[i], selected.address)
    requires forall k :: 0 <= k < i ==> !HasAccountWithAddress(wallets[k], selected.address)
    ensures SelectedWallet(wallets, selected) == Some(wallets[i])
  {
    var p := (w: Wallet) => HasAccountWithAddress(w, selected.address);
    assert p(wallets[i]);
    Seqs.FindIsFirst(wallets, p);
    var j :| Seqs.FirstIndex(wallets, p, j) && Seqs.Find(wallets, p).value == wallets[j];
    assert j == i;
  }

  /**
   * The wallet that owns the selected account is the one shown, as long as no
   * earlier wallet lists an account with the same address; disconnecting that
   * wallet then clears the selection.
   */
  lemma {:induction false} OwnerIsSelectedWallet(wallets: seq<Wallet>, selected: Account, i: nat)
    requires WellFormed(wallets)
    requires i < |wallets| && selected in wallets[i].accounts
    requires forall k :: 0 <= k < i ==> !HasAccountWithAddress(wallets[k], selected.address)
    ensures SelectedWallet(wallets, selected) == Some(wallets[i])
    ensures ClearsOnDisconnect(Some(selected), wallets[i])
  {
    assert HasAccountWithAddress(wallets[i], selected.address);
    SelectedWalletIsFirst(wallets, selected, i);
  }

  /**
   * Two wallets listing the same address: the selection owned by the second is
   * shown under the first, and disconnecting that first wallet keeps the
   * selection, because it does not belong to it.
   */
  lemma SharedAddressShowsOtherWallet()
    ensures var owned := Account("Second", "shared", "");
      var first := Wallet("First", [Account("First", "shared", "")], []);
      var wallets := [first, Wallet("Second", [owned], [])];
      SelectedWallet(wallets, owned) == Some(first) &&
      !ClearsOnDisconnect(Some(owned), first)
  {
  }

  /** The `onDisconnect` guard: there is a selection and it belongs to the disconnected wallet. */
  predicate ClearsOnDisconnect(selected: Option<Account>, wallet: Wallet)
  {
    selected.Some? && BelongsToWallet(selected.value, wallet)
  }

  /**
   * The dropdown's `onDisconnect` callback for `wallet`, given the account the provider
   * exposes and its public setter: when the guard holds the selection is set to
   * nothing, which also removes the saved value and ends restoration for the
   * session; otherwise nothing changes.
   */
  method OnDisconnect(store: WalletProvider.WalletSelectionStore, wallet: Wallet)
    modifies store
    ensures var shown := old(store.WalletAccount());
      if ClearsOnDisconnect(shown, wallet) then
        store.selectedWalletAccount.None? && store.wasSetterInvoked &&
        WalletProvider.Slot(store.storage).None? && store.wallets == old(store.wallets) &&
        (forall k :: k != WalletProvider.STORAGE_KEY ==> (k in store.storage <==> k in old(store.storage))) &&
        (forall k :: k != WalletProvider.STORAGE_KEY && k in store.storage ==> store.storage[k] == old(store.storage)[k])
      else
        store.selectedWalletAccount == old(store.selectedWalletAccount) && store.storage == old(store.storage) &&
        store.wasSetterInvoked == old(store.wasSetterInvoked) && store.wallets == old(store.wallets)
  {
    var shown := store.WalletAccount();
    if ClearsOnDisconnect(shown, wallet) {
      store.SetSelectedWalletAccount(WalletProvider.Value(None));
    }
  }
}
