/**
 * The wallet-account selection store of `SolanaWalletProvider`: a session flag
 * that records whether the user has chosen an account, the selected account
 * (which may be a stale copy), and one local-storage slot that remembers the
 * choice across sessions.
 *
 * Restoring a saved choice and resolving a stale selection against the live
 * wallet list are pure searches; the setter and the two effects change the state.
 */
module WalletProvider {
  import opened Wrappers
  import opened WalletStandard
  import Seqs
  import Strings

  /** The local-storage key under which the chosen account's storage key is kept. */
  const STORAGE_KEY: string := "solana-wallet-standard-example-react:selected-wallet-and-address"

  /** `localStorage.getItem(STORAGE_KEY)`: the saved value, or `None` when the key is absent. */
  function Slot(storage: map<string, string>): Option<string>
  {
    if STORAGE_KEY in storage then Some(storage[STORAGE_KEY]) else None
  }

  // ---------------------------------------------------------------------------
  // Restoring a saved choice: getSavedWalletAccount
  // ---------------------------------------------------------------------------

  /**
   * The destructuring `[name, address] = saved.split(':')`: the first two fields;
   * any further field is dropped, and a missing second field reads as "" (it is
   * `undefined` in the source, equally falsy).
   */
  function SavedFields(saved: string): (fields: (string, string))
    ensures ':' !in fields.0 && ':' !in fields.1
  {
    var parts := Strings.Split(saved, ':');
    (parts[0], if |parts| > 1 then parts[1] else "")
  }

  /** Only the first two fields count: `"a:b:c"` names wallet `a` and address `b`. */
  lemma SavedFieldsFirstTwo(name: string, address: string, rest: string)
    requires ':' !in name && ':' !in address
    ensures SavedFields(name + ":" + address + ":" + rest) == (name, address)
  {
    assert name + ":" + address + ":" + rest == name + [':'] + (address + [':'] + rest);
    Strings.SplitAtSep(name, address + [':'] + rest, ':');
    Strings.SplitAtSep(address, rest, ':');
  }

  /** A value with a single ':' splits into exactly its two sides. */
  lemma SavedFieldsTwo(name: string, address: string)
    requires ':' !in name && ':' !in address
    ensures SavedFields(name + ":" + address) == (name, address)
  {
    Strings.SplitAtSep(name, address, ':');
    Strings.SplitNoSep(address, ':');
  }

  /** The source's inner loop: the first account with the saved address. */
  function FindAddress(accounts: seq<Account>, address: string): Option<Account>
  {
    Seqs.Find(accounts, (a: Account) => a.address == address)
  }

  /**
   * The source's outer loop: each wallet with the saved name, in order, is
   * searched for the saved address; the first hit is returned.
   */
  function FindSaved(wallets: seq<Wallet>, name: string, address: string): (r: Option<Account>)
    ensures r.Some? ==> r.value.address == address
    ensures r.Some? ==> exists w :: w in wallets && w.name == name && r.value in w.accounts
    ensures r.None? <==> forall w, a :: w in wallets && w.name == name && a in w.accounts ==> a.address != address
  {
    if wallets == [] then None
    else if wallets[0].name == name && FindAddress(wallets[0].accounts, address).Some? then
      FindAddress(wallets[0].accounts, address)
    else
      FindSaved(wallets[1..], name, address)
  }

  /** Account `j` of wallet `i` carries the saved name and address. */
  ghost predicate SavedMatch(wallets: seq<Wallet>, name: string, address: string, i: int, j: int)
  {
    0 <= i < |wallets| && 0 <= j < |wallets[i].accounts| &&
    wallets[i].name == name && wallets[i].accounts[j].address == address
  }

  /** `FindSaved` returns the first match in wallet order, then account order. */
  lemma {:induction false} FindSavedIsFirst(wallets: seq<Wallet>, name: string, address: string)
    ensures FindSaved(wallets, name, address).Some? ==>
      exists i, j :: SavedMatch(wallets, name, address, i, j) &&
        FindSaved(wallets, name, address).value == wallets[i].accounts[j] &&
        forall i', j' :: SavedMatch(wallets, name, address, i', j') ==> i < i' || (i == i' && j <= j')
  {
    if wallets == [] {
    } else {
      var p := (a: Account) => a.address == address;
      var accounts := wallets[0].accounts;
      if wallets[0].name == name && Seqs.Find(accounts, p).Some? {
        Seqs.FindIsFirst(accounts, p);
        var j :| Seqs.FirstIndex(accounts, p, j) && Seqs.Find(accounts, p).value == accounts[j];
        assert SavedMatch(wallets, name, address, 0, j);
        forall i', j' | SavedMatch(wallets, name, address, i', j') ensures 0 < i' || (0 == i' && j <= j') {
        }
      } else if FindSaved(wallets, name, address).Some? {
        var tail := wallets[1..];
        FindSavedIsFirst(tail, name, address);
        var i, j :| SavedMatch(tail, name, address, i, j) &&
          FindSaved(tail, name, address).value == tail[i].accounts[j] &&
          forall i', j' :: SavedMatch(tail, name, address, i', j') ==> i < i' || (i == i' && j <= j');
        assert SavedMatch(wallets, name, address, i + 1, j);
        forall j' | 0 <= j' < |accounts| ensures !SavedMatch(wallets, name, address, 0, j') {
          assert accounts[j'] in accounts;
        }
        forall i', j' | SavedMatch(wallets, name, address, i', j') ensures i + 1 < i' || (i + 1 == i' && j <= j') {
          if i' > 0 {
            assert SavedMatch(tail, name, address, i' - 1, j');
          }
        }
      }
    }
  }

  /**
   * `getSavedWalletAccount`: once the setter has run nothing is restored;
   * otherwise the saved value is split and the wallets are searched for it.
   */
  function SavedWalletAccount(setterInvoked: bool, slot: Option<string>, wallets: seq<Wallet>): (r: Option<Account>)
    ensures setterInvoked ==> r.None?
    ensures slot.None? || slot == Some("") ==> r.None?
    ensures slot.Some? && (SavedFields(slot.value).0 == "" || SavedFields(slot.value).1 == "") ==> r.None?
    ensures r.Some? ==> slot.Some? && r.value.address == SavedFields(slot.value).1
    ensures r.Some? ==> slot.Some? && exists w :: w in wallets && w.name == SavedFields(slot.value).0 && r.value in w.accounts
  {
    if setterInvoked then None
    else if slot.None? || slot.value == "" then None
    else
      var (name, address) := SavedFields(slot.value);
      if name == "" || address == "" then None
      else FindSaved(wallets, name, address)
  }

  /**
   * Restoring what the setter saved finds the same account again, provided the
   * wallet name and address hold no ':' and the account is still listed.
   */
  lemma {:induction false} RestoreAfterSave(account: Account, wallets: seq<Wallet>)
    requires WellFormed(wallets)
    requires account.walletName != "" && account.address != ""
    requires ':' !in account.walletName && ':' !in account.address
    requires exists w :: w in wallets && account in w.accounts
    ensures SavedWalletAccount(false, Some(StorageKey(account)), wallets).Some?
    ensures AccountsAreSame(SavedWalletAccount(false, Some(StorageKey(account)), wallets).value, account)
  {
    SavedFieldsTwo(account.walletName, account.address);
    var w :| w in wallets && account in w.accounts;
    assert w.name == account.walletName;
  }

  /**
   * With well-formed wallets, an account whose wallet name holds ':' is never
   * restored from a saved value: a restored account's wallet name is the first
   * field, which holds no ':'.
   */
  lemma ColonInWalletNameNeverRestored(account: Account, slot: Option<string>, wallets: seq<Wallet>)
    requires WellFormed(wallets)
    requires ':' in account.walletName
    ensures var r := SavedWalletAccount(false, slot, wallets);
      r.Some? ==> r.value.walletName != account.walletName
  {
  }

  /**
   * Restoration does not fall back to another account of the saved wallet:
   * with "Phantom:A1" saved and Phantom listing only A2, nothing is restored.
   */
  lemma RestoreHasNoWalletFallback()
    ensures var a2 := Account("Phantom", "A2", "");
      SavedWalletAccount(false, Some("Phantom:A1"), [Wallet("Phantom", [a2], [])]).None?
  {
    assert "Phantom:A1" == "Phantom" + ":" + "A1";
    SavedFieldsTwo("Phantom", "A1");
  }

  /**
   * An instance of `ColonInWalletNameNeverRestored`: the saved value splits at
   * the name's own ':' and no wallet has the truncated name.
   */
  lemma ColonInWalletNameIsNotRestored()
    ensures var account := Account("Wallet:Pro", "address", "");
      SavedWalletAccount(false, Some(StorageKey(account)), [Wallet("Wallet:Pro", [account], [])]).None?
  {
  }

  // ---------------------------------------------------------------------------
  // Resolving a possibly stale selection: the walletAccount derivation
  // ---------------------------------------------------------------------------

  /** The source's inner loop: the first live account that is the same as the selection. */
  function FindSame(selected: Account, accounts: seq<Account>): Option<Account>
  {
    Seqs.Find(accounts, (a: Account) => AccountsAreSame(selected, a))
  }

  /**
   * The source's outer loop: for each wallet in order, the account that is the
   * same as the selection; failing that, the wallet's first account if the
   * selection belongs to the wallet; failing that, the next wallet.
   */
  function ResolveIn(selected: Account, wallets: seq<Wallet>): (r: Option<Account>)
    ensures r.Some? ==> exists w :: w in wallets && r.value in w.accounts
  {
    if wallets == [] then None
    else if FindSame(selected, wallets[0].accounts).Some? then FindSame(selected, wallets[0].accounts)
    else if BelongsToWallet(selected, wallets[0]) && |wallets[0].accounts| > 0 then Some(wallets[0].accounts[0])
    else ResolveIn(selected, wallets[1..])
  }

  /** `walletAccount`: nothing without a selection, else the live account it resolves to. */
  function ResolveWalletAccount(selected: Option<Account>, wallets: seq<Wallet>): (r: Option<Account>)
    ensures selected.None? ==> r.None?
    ensures r.Some? ==> exists w :: w in wallets && r.value in w.accounts
  {
    if selected.None? then None else ResolveIn(selected.value, wallets)
  }

  /** A wallet stops the search: it lists the selection itself, or the selection belongs to it and it has accounts. */
  ghost predicate Qualifies(selected: Account, wallet: Wallet)
  {
    (exists a :: a in wallet.accounts && AccountsAreSame(selected, a)) ||
    (BelongsToWallet(selected, wallet) && |wallet.accounts| > 0)
  }

  /** What a qualifying wallet yields: its first account that is the same, or else its first account. */
  ghost predicate PickedFrom(selected: Account, wallet: Wallet, account: Account)
  {
    (exists j :: Seqs.FirstIndex(wallet.accounts, (a: Account) => AccountsAreSame(selected, a), j) &&
                 account == wallet.accounts[j]) ||
    ((forall a :: a in wallet.accounts ==> !AccountsAreSame(selected, a)) &&
     BelongsToWallet(selected, wallet) && |wallet.accounts| > 0 && account == wallet.accounts[0])
  }

  /** Resolution is the pick of the first qualifying wallet, and nothing when no wallet qualifies. */
  lemma {:induction false} ResolveIsFirstQualifying(selected: Account, wallets: seq<Wallet>)
    ensures ResolveIn(selected, wallets).None? <==> forall w :: w in wallets ==> !Qualifies(selected, w)
    ensures ResolveIn(selected, wallets).Some? ==>
      exists i :: 0 <= i < |wallets| && Qualifies(selected, wallets[i]) &&
        (forall k :: 0 <= k < i ==> !Qualifies(selected, wallets[k])) &&
        PickedFrom(selected, wallets[i], ResolveIn(selected, wallets).value)
  {
    if wallets != [] {
      var p := (a: Account) => AccountsAreSame(selected, a);
      var w := wallets[0];
      if Seqs.Find(w.accounts, p).Some? {
        Seqs.FindIsFirst(w.accounts, p);
        assert Qualifies(selected, w);
        assert PickedFrom(selected, w, ResolveIn(selected, wallets).value);
      } else if BelongsToWallet(selected, w) && |w.accounts| > 0 {
        assert Qualifies(selected, w);
        assert PickedFrom(selected, w, ResolveIn(selected, wallets).value);
      } else {
        assert !Qualifies(selected, w);
        var tail := wallets[1..];
        ResolveIsFirstQualifying(selected, tail);
        assert wallets == [w] + tail;
        if ResolveIn(selected, tail).Some? {
          var i :| 0 <= i < |tail| && Qualifies(selected, tail[i]) &&
            (forall k :: 0 <= k < i ==> !Qualifies(selected, tail[k])) &&
            PickedFrom(selected, tail[i], ResolveIn(selected, tail).value);
          assert wallets[i + 1] == tail[i];
          forall k | 0 <= k < i + 1 ensures !Qualifies(selected, wallets[k]) {
            if k > 0 {
              assert wallets[k] == tail[k - 1];
            }
          }
        }
      }
    }
  }

  /** With well-formed wallets, resolution never leaves the selection's wallet. */
  lemma {:induction false} ResolveKeepsWalletName(selected: Account, wallets: seq<Wallet>)
    requires WellFormed(wallets)
    ensures ResolveIn(selected, wallets).Some? ==> ResolveIn(selected, wallets).value.walletName == selected.walletName
  {
    if wallets != [] && FindSame(selected, wallets[0].accounts).None? {
      if !(BelongsToWallet(selected, wallets[0]) && |wallets[0].accounts| > 0) {
        ResolveKeepsWalletName(selected, wallets[1..]);
      } else {
        assert wallets[0].accounts[0] in wallets[0].accounts;
      }
    }
  }

  /**
   * With well-formed wallets, a selection resolves to nothing exactly when no
   * wallet of the selection's name is listed with at least one account (its
   * wallet has disconnected).
   */
  lemma {:induction false} ResolveNoneIffWalletGone(selected: Account, wallets: seq<Wallet>)
    requires WellFormed(wallets)
    ensures ResolveIn(selected, wallets).None? <==>
      forall w :: w in wallets && w.name == selected.walletName ==> w.accounts == []
  {
    if wallets != [] {
      var w := wallets[0];
      ResolveNoneIffWalletGone(selected, wallets[1..]);
      assert wallets == [w] + wallets[1..];
      if w.name == selected.walletName && w.accounts != [] {
        assert BelongsToWallet(selected, w);
        if FindSame(selected, w.accounts).Some? {
          assert FindSame(selected, w.accounts).value in w.accounts;
        }
      }
    }
  }

  /**
   * With well-formed wallets, resolving the resolved account gives it back:
   * the live account chosen is stable under another round of resolution.
   */
  lemma {:induction false} ResolveIsStable(selected: Account, wallets: seq<Wallet>)
    requires WellFormed(wallets)
    ensures ResolveIn(selected, wallets).Some? ==>
      ResolveIn(ResolveIn(selected, wallets).value, wallets) == ResolveIn(selected, wallets)
  {
    if wallets != [] {
      var w := wallets[0];
      var p := (a: Account) => AccountsAreSame(selected, a);
      if Seqs.Find(w.accounts, p).Some? {
        var r := Seqs.Find(w.accounts, p).value;
        Seqs.FindAgrees(w.accounts, p, (a: Account) => AccountsAreSame(r, a));
      } else if BelongsToWallet(selected, w) && |w.accounts| > 0 {
        var r := w.accounts[0];
        assert AccountsAreSame(r, r);
      } else if ResolveIn(selected, wallets).Some? {
        var tail := wallets[1..];
        var r := ResolveIn(selected, tail).value;
        ResolveIsStable(selected, tail);
        ResolveKeepsWalletName(selected, tail);
      }
    }
  }

  // ---------------------------------------------------------------------------
  // The store
  // ---------------------------------------------------------------------------

  /** React's `SetStateAction`: a new selection, or a function of the previous one. */
  datatype SetStateAction =
    | Value(account: Option<Account>)
    | Updater(update: Option<Account> -> Option<Account>)

  /** The selection an action produces from the previous one. */
  function NextSelection(action: SetStateAction, previous: Option<Account>): Option<Account>
  {
    match action
    case Value(account) => account
    case Updater(update) => update(previous)
  }

  /**
   * The provider's state. The flag is module-level in the source, so a provider
   * mounted later in the same session inherits it; the constructor takes it.
   * `wallets` is the list the wallet registry last delivered.
   */
  class WalletSelectionStore {
    var wasSetterInvoked: bool
    var selectedWalletAccount: Option<Account>
    var storage: map<string, string>
    var wallets: seq<Wallet>

    /** The `walletAccount` the provider exposes: the selection resolved against the live wallets. */
    function WalletAccount(): Option<Account>
      reads this
    {
      ResolveWalletAccount(selectedWalletAccount, wallets)
    }

    /** Mounting the provider: the selection starts as whatever is restored from storage. */
    constructor (storage: map<string, string>, wasSetterInvoked: bool, wallets: seq<Wallet>)
      ensures this.storage == storage && this.wasSetterInvoked == wasSetterInvoked && this.wallets == wallets
      ensures selectedWalletAccount == SavedWalletAccount(wasSetterInvoked, Slot(storage), wallets)
    {
      this.storage := storage;
      this.wasSetterInvoked := wasSetterInvoked;
      this.wallets := wallets;
      selectedWalletAccount := SavedWalletAccount(wasSetterInvoked, Slot(storage), wallets);
    }

    /**
     * The public setter: records that the user has chosen, applies the action,
     * and saves the new account's storage key, or removes the saved value when
     * there is no account or its key is empty.
     */
    method SetSelectedWalletAccount(action: SetStateAction)
      modifies this
      ensures wasSetterInvoked
      ensures selectedWalletAccount == NextSelection(action, old(selectedWalletAccount))
      ensures wallets == old(wallets)
      ensures selectedWalletAccount.Some? && StorageKey(selectedWalletAccount.value) != "" ==>
        Slot(storage) == Some(StorageKey(selectedWalletAccount.value))
      ensures selectedWalletAccount.None? || StorageKey(selectedWalletAccount.value) == "" ==>
        Slot(storage) == None
      ensures forall k :: k != STORAGE_KEY ==> (k in storage <==> k in old(storage))
      ensures forall k :: k != STORAGE_KEY && k in storage ==> storage[k] == old(storage)[k]
    {
      wasSetterInvoked := true;
      var next := NextSelection(action, selectedWalletAccount);
      var accountKey := if next.Some? then StorageKey(next.value) else "";
      if accountKey != "" {
        storage := storage[STORAGE_KEY := accountKey];
      } else {
        storage := storage - {STORAGE_KEY};
      }
      selectedWalletAccount := next;
    }

    /**
     * The effect on a new wallet list: restoration is attempted again and, when
     * it finds an account, replaces the selection. After the setter has run it
     * never changes the selection.
     */
    method OnWalletsChanged(newWallets: seq<Wallet>)
      modifies this
      ensures wallets == newWallets
      ensures storage == old(storage) && wasSetterInvoked == old(wasSetterInvoked)
      ensures var saved := SavedWalletAccount(old(wasSetterInvoked), Slot(old(storage)), newWallets);
        selectedWalletAccount == if saved.Some? then saved else old(selectedWalletAccount)
      ensures old(wasSetterInvoked) ==> selectedWalletAccount == old(selectedWalletAccount)
    {
      wallets := newWallets;
      var savedWalletAccount := SavedWalletAccount(wasSetterInvoked, Slot(storage), wallets);
      if savedWalletAccount.Some? {
        selectedWalletAccount := savedWalletAccount;
      }
    }

    /**
     * The effect on a selection or wallet change: a selection that resolves to
     * nothing is cleared, through the internal state setter, so the saved value
     * and the flag stay as they were.
     */
    method Reconcile()
      modifies this`selectedWalletAccount
      ensures storage == old(storage) && wasSetterInvoked == old(wasSetterInvoked) && wallets == old(wallets)
      ensures old(selectedWalletAccount).Some? && old(WalletAccount()).None? ==> selectedWalletAccount.None?
      ensures !(old(selectedWalletAccount).Some? && old(WalletAccount()).None?) ==>
        selectedWalletAccount == old(selectedWalletAccount)
      ensures selectedWalletAccount.Some? ==> WalletAccount().Some?
    {
      if selectedWalletAccount.Some? && WalletAccount().None? {
        selectedWalletAccount := None;
      }
    }
  }

  // ---------------------------------------------------------------------------
  // Sessions
  // ---------------------------------------------------------------------------

  /**
   * After the user's explicit choice, no wallet list that arrives later brings
   * back a saved account: the selection stays the choice or becomes nothing, and
   * the saved value stays what the setter left.
   */
  method ExplicitChoiceSticks(saved: map<string, string>, initial: seq<Wallet>, choice: Option<Account>,
                              later: seq<seq<Wallet>>)
    returns (selection: Option<Account>, slot: Option<string>)
    ensures selection == choice || selection.None?
    ensures slot == if choice.Some? then Some(StorageKey(choice.value)) else None
  {
    var store := new WalletSelectionStore(saved, false, initial);
    store.OnWalletsChanged(initial);
    store.Reconcile();
    store.SetSelectedWalletAccount(Value(choice));
    var n := 0;
    while n < |later|
      invariant 0 <= n <= |later|
      invariant store.wasSetterInvoked
      invariant store.selectedWalletAccount == choice || store.selectedWalletAccount.None?
      invariant Slot(store.storage) == if choice.Some? then Some(StorageKey(choice.value)) else None
    {
      store.OnWalletsChanged(later[n]);
      store.Reconcile();
      n := n + 1;
    }
    selection, slot := store.selectedWalletAccount, Slot(store.storage);
  }

  /**
   * Choosing an account of the only wallet saves "Phantom:A1" and exposes that
   * account; when the wallet then disappears the selection is cleared while the
   * saved value stays, since the reconciliation does not touch storage.
   */
  method SelectThenWalletDisappears()
    returns (shownAfterSelect: Option<Account>, slotAfterSelect: Option<string>,
             shownAfterDisconnect: Option<Account>, slotAfterDisconnect: Option<string>)
    ensures shownAfterSelect == Some(Account("Phantom", "A1", "")) && slotAfterSelect == Some("Phantom:A1")
    ensures shownAfterDisconnect.None? && slotAfterDisconnect == Some("Phantom:A1")
  {
    var a1 := Account("Phantom", "A1", "");
    var phantom := Wallet("Phantom", [a1], ["standard:connect", "standard:disconnect"]);
    var store := new WalletSelectionStore(map[], false, [phantom]);
    store.SetSelectedWalletAccount(Value(Some(a1)));
    assert StorageKey(a1) == "Phantom:A1";
    assert Seqs.Find([a1], (a: Account) => AccountsAreSame(a1, a)) == Some(a1);
    shownAfterSelect, slotAfterSelect := store.WalletAccount(), Slot(store.storage);
    store.OnWalletsChanged([]);
    store.Reconcile();
    shownAfterDisconnect, slotAfterDisconnect := store.WalletAccount(), Slot(store.storage);
  }
}
