/** Which accounts the payment daemon makes: what unlocking, registering a signer and deriving in bulk
    leave in the wallet, account by account, and what is missing after a failure. */
module AccountLaws {
  import opened Accounts
  import opened Protocols
  import opened Wire
  import opened Wrappers

  /** The paths by example: the purpose, the coin type of the protocol, and the account. */
  lemma PathTexts()
    ensures DerivationPath(Zcash, 0) == "m/44'/133'/0'" && DerivationPath(Zcash, 12) == "m/44'/133'/12'"
    ensures DerivationPath(Ethereum, 0) == "m/44'/60'/0'/0/0" && DerivationPath(Ethereum, 12) == "m/44'/60'/0'/0/12"
    ensures AccountName(Zcash, 0) == "Zcash Account 0" && AccountName(Ethereum, 12) == "Ethereum Account 12"
  {
    assert Decimal.Digits(12) == Decimal.Digits(1) + ['2'];
    assert Decimal.Digits(1) == ['1'] && Decimal.Digits(0) == ['0'];
  }

  /** An account is made exactly when there is none with its path, its index is in range, there is a key for
      it, its protocol is known, the key has an address, and it can be saved. */
  lemma CreatedIff(db: Db, w: World, id: ProtocolId, path: string, index: nat, name: string, saved: Option<string>)
    ensures
      CreateAccount(db, w, id, path, index, name, saved).1.Ok? <==>
      && (forall a <- db.accounts :: a.protocol == id ==> a.path != path)
      && index < 30 && (id, index) in db.keys && id in w.known
      && w.address(id, db.keys[(id, index)]).Ok? && saved.None?
  {
    if forall a <- db.accounts :: a.protocol == id ==> a.path != path {
      forall i | 0 <= i < |db.accounts| ensures !(db.accounts[i].protocol == id && db.accounts[i].path == path) {
        assert db.accounts[i] in db.accounts;
      }
    }
  }

  // ----- Unlocking

  /** The first account of a protocol can be made. */
  predicate CanMake(keys: KeyTable, w: World, saved: ProtocolId -> Option<string>, id: ProtocolId) {
    (id, 0) in keys && id in w.known && w.address(id, keys[(id, 0)]).Ok? && saved(id).None?
  }

  /** The first account of a protocol, with the key stored for it. */
  function FirstAccount(keys: KeyTable, id: ProtocolId): Account
    requires (id, 0) in keys
  {
    Account(id, DerivationPath(id, 0), AccountName(id, 0), keys[(id, 0)])
  }

  /** Those of the protocols for which it can be made, in their order. */
  function Firsts(keys: KeyTable, w: World, saved: ProtocolId -> Option<string>, ids: seq<ProtocolId>): seq<Account> {
    if ids == [] then []
    else
      var n := |ids| - 1;
      Firsts(keys, w, saved, ids[..n]) + if CanMake(keys, w, saved, ids[n]) then [FirstAccount(keys, ids[n])] else []
  }

  lemma {:induction false} FirstsFront(keys: KeyTable, w: World, saved: ProtocolId -> Option<string>,
                                       ids: seq<ProtocolId>)
    requires ids != []
    ensures Firsts(keys, w, saved, ids) ==
            (if CanMake(keys, w, saved, ids[0]) then [FirstAccount(keys, ids[0])] else []) +
            Firsts(keys, w, saved, ids[1..])
    decreases |ids|
  {
    hide CanMake, FirstAccount;
    var n := |ids| - 1;
    if n > 0 {
      FirstsFront(keys, w, saved, ids[..n]);
      assert ids[..n][1..] == ids[1..][..n - 1];
    } else {
      assert ids[..n] == [] && ids[1..] == [];
    }
  }

  lemma {:induction false} FirstsMade(db: Db, w: World, ids: seq<ProtocolId>, saved: ProtocolId -> Option<string>)
    requires Distinct(ids) && forall a <- db.accounts :: a.protocol !in ids
    ensures FirstAccounts(db, w, ids, saved) == db.(accounts := db.accounts + Firsts(db.keys, w, saved, ids))
    decreases |ids|
  {
    hide DerivationPath, AccountName, CreateAccount, Firsts;
    if ids != [] {
      var id := ids[0];
      var next := CreateAccount(db, w, id, DerivationPath(id, 0), 0, AccountName(id, 0), saved(id)).0;
      CreatedIff(db, w, id, DerivationPath(id, 0), 0, AccountName(id, 0), saved(id));
      OneCreated(db, w, id, saved(id));
      FirstsMade(next, w, ids[1..], saved);
      FirstsFront(db.keys, w, saved, ids);
    } else {
      NoFirsts(db.keys, w, saved);
    }
  }

  lemma NoFirsts(keys: KeyTable, w: World, saved: ProtocolId -> Option<string>)
    ensures Firsts(keys, w, saved, []) == []
  {}

  lemma OneCreated(db: Db, w: World, id: ProtocolId, saved: Option<string>)
    ensures CreateAccount(db, w, id, DerivationPath(id, 0), 0, AccountName(id, 0), saved).1.Ok? ==> (id, 0) in db.keys
    ensures
      var (db', r) := CreateAccount(db, w, id, DerivationPath(id, 0), 0, AccountName(id, 0), saved);
      db' == if r.Ok? then db.(accounts := db.accounts + [FirstAccount(db.keys, id)]) else db
  {
    hide DerivationPath, AccountName;
  }

  /** Unlocking a wallet without accounts makes the first account of exactly those protocols that are known,
      have a key stored at index 0 with an address, and can be saved, in the order of the protocols; the
      others are passed over. */
  lemma UnlockMakes(db: Db, w: World, keys: seq<DerivedKey>, saves: nat -> bool, ids: seq<ProtocolId>,
                    saved: ProtocolId -> Option<string>)
    requires db.accounts == [] && Distinct(ids)
    ensures
      var (db', r) := Unlock(db, w, Ok(keys), saves, ids, saved);
      && r == Ok(|keys|) && db'.keys == Stored(db.keys, keys, saves)
      && db'.accounts == Firsts(db'.keys, w, saved, ids)
    ensures
      var db' := Unlock(db, w, Ok(keys), saves, ids, saved).0;
      forall a :: a in db'.accounts <==>
                  exists id <- ids :: CanMake(db'.keys, w, saved, id) && a == FirstAccount(db'.keys, id)
  {
    hide FirstAccounts, Firsts, Stored, DerivationPath, AccountName;
    var table := Stored(db.keys, keys, saves);
    FirstsMade(db.(keys := table), w, ids, saved);
    assert [] + Firsts(table, w, saved, ids) == Firsts(table, w, saved, ids);
    forall a
      ensures a in Firsts(table, w, saved, ids) <==>
              exists id <- ids :: CanMake(table, w, saved, id) && a == FirstAccount(table, id)
    {
      FirstsMember(table, w, saved, ids, a);
    }
  }

  /** Unlocking a wallet that has accounts, or without keys, changes nothing. */
  lemma UnlockKeeps(db: Db, w: World, keys: Result<seq<DerivedKey>, string>, saves: nat -> bool, ids: seq<ProtocolId>,
                    saved: ProtocolId -> Option<string>)
    ensures db.accounts != [] ==> Unlock(db, w, keys, saves, ids, saved) == (db, Ok(|db.accounts|))
    ensures db.accounts == [] && keys.Err? ==>
              Unlock(db, w, keys, saves, ids, saved).0 == db && Unlock(db, w, keys, saves, ids, saved).1.Err?
  {}

  lemma {:induction false} FirstsMember(keys: KeyTable, w: World, saved: ProtocolId -> Option<string>,
                                        ids: seq<ProtocolId>, a: Account)
    ensures a in Firsts(keys, w, saved, ids) <==>
            exists id <- ids :: CanMake(keys, w, saved, id) && a == FirstAccount(keys, id)
    decreases |ids|
  {
    hide CanMake, FirstAccount;
    if ids != [] {
      var n := |ids| - 1;
      FirstsMember(keys, w, saved, ids[..n], a);
      assert ids == ids[..n] + [ids[n]];
    }
  }

  /** Its key is the first that was derived for the protocol, if the database took that one. */
  lemma FirstKeyStored(table: KeyTable, keys: seq<DerivedKey>, saves: nat -> bool, id: ProtocolId, k: nat)
    requires k < |keys| && keys[k].0 == id && saves(k)
    requires forall j :: 0 <= j < k ==> keys[j].0 != id
    ensures (id, 0) in Stored(table, keys, saves) && Stored(table, keys, saves)[(id, 0)] == keys[k].2
  {
    hide Stored, KeysOf;
    NoneBefore(keys, id, k);
    StoredAt(table, keys, saves, id, k);
  }

  lemma {:induction false} NoneBefore(keys: seq<DerivedKey>, id: ProtocolId, k: nat)
    requires k <= |keys| && forall j :: 0 <= j < k ==> keys[j].0 != id
    ensures KeysOf(keys[..k], id) == []
  {
    if k > 0 {
      NoneBefore(keys, id, k - 1);
      assert keys[..k][..k - 1] == keys[..k - 1];
    }
  }

  lemma {:induction false} StoredAt(table: KeyTable, keys: seq<DerivedKey>, saves: nat -> bool, id: ProtocolId, k: nat)
    requires k < |keys| && keys[k].0 == id && saves(k) && KeysOf(keys[..k], id) == []
    ensures (id, 0) in Stored(table, keys, saves) && Stored(table, keys, saves)[(id, 0)] == keys[k].2
    ensures KeysOf(keys, id) != []
    decreases |keys|
  {
    var n := |keys| - 1;
    if k < n {
      assert keys[..n][..k] == keys[..k];
      StoredAt(table, keys[..n], saves, id, k);
    }
  }

  // ----- Registering a signer, and deriving in bulk

  /** The account of a key can be made. */
  predicate CanAdd(w: World, keys: seq<DerivedKey>, saved: nat -> Option<string>, k: nat)
    requires k < |keys|
  {
    keys[k].0 in w.known && w.address(keys[k].0, keys[k].2).Ok? && saved(k).None?
  }

  /** The accounts of the first keys whose protocols are known, with the paths they came with, numbered
      within their protocols. */
  function AccountsOf(w: World, keys: seq<DerivedKey>): seq<Account> {
    if keys == [] then []
    else
      var n := |keys| - 1;
      var (id, path, key) := keys[n];
      AccountsOf(w, keys[..n]) +
      if id in w.known then [Account(id, path, AccountName(id, |KeysOf(keys[..n], id)|), key)] else []
  }

  /** Registering a signer makes the account of every key of a known protocol, up to the first that has no
      address or cannot be saved; it succeeds exactly when there is none such. */
  lemma RegisterMakes(db: Db, w: World, keys: seq<DerivedKey>, saved: nat -> Option<string>) returns (m: nat)
    ensures m <= |keys|
    ensures
      var (db', r) := Register(db, w, keys, 0, saved);
      && db'.accounts == db.accounts + AccountsOf(w, keys[..m])
      && (r.Ok? <==> m == |keys|)
      && (forall k: nat :: k < m && keys[k].0 in w.known ==> CanAdd(w, keys, saved, k))
      && (m < |keys| ==> keys[m].0 in w.known && !CanAdd(w, keys, saved, m))
  {
    assert keys[..0] == [] && db.accounts + [] == db.accounts;
    m := RegisterFrom(db, w, keys, 0, saved, db.accounts);
  }

  lemma {:induction false} RegisterFrom(db: Db, w: World, keys: seq<DerivedKey>, done: nat,
                                        saved: nat -> Option<string>, before: seq<Account>) returns (m: nat)
    requires done <= |keys| && db.accounts == before + AccountsOf(w, keys[..done])
    ensures done <= m <= |keys|
    ensures
      var (db', r) := Register(db, w, keys, done, saved);
      && db'.accounts == before + AccountsOf(w, keys[..m])
      && (r.Ok? <==> m == |keys|)
      && (forall k: nat :: done <= k < m && keys[k].0 in w.known ==> CanAdd(w, keys, saved, k))
      && (m < |keys| ==> keys[m].0 in w.known && !CanAdd(w, keys, saved, m))
    decreases |keys| - done
  {
    hide AccountName, KeysOf;
    m := done;
    if done < |keys| {
      var (id, path, key) := keys[done];
      assert keys[..done + 1][..done] == keys[..done];
      var index := |KeysOf(keys[..done], id)|;
      var stored := db.(keys := db.keys[(id, index) := key]);
      if id !in w.known {
        m := RegisterFrom(stored, w, keys, done + 1, saved, before);
      } else if CanAdd(w, keys, saved, done) {
        var account := Account(id, path, AccountName(id, index), key);
        assert before + AccountsOf(w, keys[..done]) + [account] == before + (AccountsOf(w, keys[..done]) + [account]);
        m := RegisterFrom(stored.(accounts := stored.accounts + [account]), w, keys, done + 1, saved, before);
      }
    }
  }

  /** Deriving in bulk makes the account of every key, with its own path, up to the first whose protocol is
      unknown, that has no address or cannot be saved; it succeeds exactly when there is none such. */
  lemma BulkMakes(db: Db, w: World, keys: seq<DerivedKey>, saved: nat -> Option<string>) returns (m: nat)
    ensures m <= |keys|
    ensures
      var (db', r) := DeriveAccounts(db, w, keys, 0, saved);
      && |db'.accounts| == |db.accounts| + m && db.accounts <= db'.accounts
      && (forall k :: 0 <= k < m ==>
                        var a := db'.accounts[|db.accounts| + k];
                        a.protocol == keys[k].0 && a.path == keys[k].1 && a.viewingKey == keys[k].2)
      && (r.Ok? <==> m == |keys|)
      && (forall k: nat :: k < m ==> CanAdd(w, keys, saved, k))
      && (m < |keys| ==> !CanAdd(w, keys, saved, m))
  {
    m := BulkFrom(db, w, keys, 0, saved);
  }

  lemma {:induction false} BulkFrom(db: Db, w: World, keys: seq<DerivedKey>, done: nat, saved: nat -> Option<string>)
    returns (m: nat)
    requires done <= |keys|
    ensures done <= m <= |keys|
    ensures
      var (db', r) := DeriveAccounts(db, w, keys, done, saved);
      && |db'.accounts| == |db.accounts| + (m - done) && db.accounts <= db'.accounts
      && (forall k :: done <= k < m ==>
                        var a := db'.accounts[|db.accounts| + k - done];
                        a.protocol == keys[k].0 && a.path == keys[k].1 && a.viewingKey == keys[k].2)
      && (r.Ok? <==> m == |keys|)
      && (forall k: nat :: done <= k < m ==> CanAdd(w, keys, saved, k))
      && (m < |keys| ==> !CanAdd(w, keys, saved, m))
    decreases |keys| - done
  {
    hide AccountName, IndexFromPath;
    m := done;
    if done < |keys| && CanAdd(w, keys, saved, done) {
      var (id, path, key) := keys[done];
      var account := Account(id, path, AccountName(id, IndexFromPath(path)), key);
      var next := db.(accounts := db.accounts + [account]);
      m := BulkFrom(next, w, keys, done + 1, saved);
      var all := DeriveAccounts(next, w, keys, done + 1, saved).0.accounts;
      assert all[|db.accounts|] == next.accounts[|db.accounts|];
      assert db.accounts <= all;
    }
  }
}
