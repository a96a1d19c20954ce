/** Pre-derived viewing keys and accounts: from the derivation paths the client lists, through the key
    daemon, to the tables of the payment daemon. */
module Accounts {
  import opened Protocols
  import opened Text
  import opened Wire
  import opened Wrappers
  import Decimal
  import Keypunk

  const UNLOCK_COUNT := 30
  const REGISTER_COUNT := 2
  const MAX_INDEX := 29
  const U32_MAX := 0xFFFF_FFFF

  type Path = (ProtocolId, string)
  type DerivedKey = (ProtocolId, string, Bytes)

  function DerivationPath(id: ProtocolId, account: nat): string {
    match id
    case Zcash => "m/44'/133'/" + Decimal.Digits(account) + "'"
    case Ethereum => "m/44'/60'/0'/0/" + Decimal.Digits(account)
  }

  /** Different accounts have different paths. */
  lemma PathsDiffer(id: ProtocolId, a: nat, b: nat)
    ensures DerivationPath(id, a) == DerivationPath(id, b) ==> a == b
  {
    hide Decimal.Digits;
    Decimal.DigitsAreDigits(a);
    Decimal.DigitsAreDigits(b);
    if DerivationPath(id, a) == DerivationPath(id, b) {
      var p, q := DerivationPath(id, a), DerivationPath(id, b);
      match id
      case Zcash =>
        assert p[11..|p| - 1] == Decimal.Digits(a) && q[11..|q| - 1] == Decimal.Digits(b);
      case Ethereum =>
        assert p[15..] == Decimal.Digits(a) && q[15..] == Decimal.Digits(b);
    }
  }

  // ----- The client lists paths

  function PathsOf(id: ProtocolId, from: nat, n: nat): seq<Path>
    requires from <= n
    decreases n - from
  {
    if from == n then [] else [(id, DerivationPath(id, from))] + PathsOf(id, from + 1, n)
  }

  function Paths(ids: seq<ProtocolId>, n: nat): seq<Path> {
    if ids == [] then [] else PathsOf(ids[0], 0, n) + Paths(ids[1..], n)
  }

  method ListPaths(ids: seq<ProtocolId>, n: nat) returns (paths: seq<Path>)
    ensures paths == Paths(ids, n)
  {
    hide DerivationPath;
    paths := [];
    assert ids[0..] == ids;
    for i := 0 to |ids|
      invariant paths + Paths(ids[i..], n) == Paths(ids, n)
    {
      assert ids[i..][1..] == ids[i + 1..];
      ghost var before := paths;
      for account := 0 to n
        invariant paths + PathsOf(ids[i], account, n) == before + PathsOf(ids[i], 0, n)
      {
        paths := paths + [(ids[i], DerivationPath(ids[i], account))];
      }
      assert paths == before + PathsOf(ids[i], 0, n);
    }
  }

  // ----- The payment daemon stores keys

  /** The keys of one protocol, in their order. */
  function KeysOf(keys: seq<DerivedKey>, id: ProtocolId): seq<Bytes> {
    if keys == [] then []
    else
      var n := |keys| - 1;
      KeysOf(keys[..n], id) + if keys[n].0 == id then [keys[n].2] else []
  }

  type KeyTable = map<(ProtocolId, nat), Bytes>

  /** The table after these keys: each goes to the number of keys of its protocol before it. A key that
      the database does not take is passed over. */
  function Stored(table: KeyTable, keys: seq<DerivedKey>, saves: nat -> bool): KeyTable {
    if keys == [] then table
    else
      var n := |keys| - 1;
      var before := Stored(table, keys[..n], saves);
      var (id, _, key) := keys[n];
      if saves(n) then before[(id, |KeysOf(keys[..n], id)|) := key] else before
  }

  /** Entry j of a protocol is its j-th key; where the database failed it may be what was there before. */
  lemma {:induction false} StoredEntry(table: KeyTable, keys: seq<DerivedKey>, saves: nat -> bool,
                                       id: ProtocolId, j: nat)
    ensures
      var t := Stored(table, keys, saves);
      if j < |KeysOf(keys, id)| then
        || ((id, j) in t && t[(id, j)] == KeysOf(keys, id)[j])
        || (!(forall k :: 0 <= k < |keys| ==> saves(k)) && SameEntry(t, table, (id, j)))
      else SameEntry(t, table, (id, j))
  {
    if keys != [] {
      StoredEntry(table, keys[..|keys| - 1], saves, id, j);
    }
  }

  predicate SameEntry(t: KeyTable, u: KeyTable, k: (ProtocolId, nat)) {
    (k in t <==> k in u) && (k in t ==> t[k] == u[k])
  }

  datatype Account = Account(protocol: ProtocolId, path: string, name: string, viewingKey: Bytes)

  datatype Db = Db(keys: KeyTable, accounts: seq<Account>)

  /** The protocols of the payment daemon and their addresses. */
  datatype World = World(known: set<ProtocolId>, address: (ProtocolId, Bytes) -> Result<string, string>)

  function AccountName(id: ProtocolId, index: nat): string {
    Name(id) + " Account " + Decimal.Digits(index)
  }

  predicate Exists(accounts: seq<Account>, id: ProtocolId, path: string) {
    exists i :: 0 <= i < |accounts| && accounts[i].protocol == id && accounts[i].path == path
  }

  function CreateAccount(db: Db, w: World, id: ProtocolId, path: string, index: nat, name: string,
                         saved: Option<string>): (Db, Result<Account, string>) {
    if Exists(db.accounts, id, path) then (db, Err("account already exists"))
    else if index > MAX_INDEX then (db, Err("account index is beyond pre-derived range (0-29)"))
    else if (id, index) !in db.keys then (db, Err("no pre-derived viewing key found"))
    else if id !in w.known then (db, Err("unknown protocol"))
    else
      match (w.address(id, db.keys[(id, index)]), saved)
      case (Err(e), _) => (db, Err(e))
      case (Ok(_), Some(e)) => (db, Err(e))
      case (Ok(_), None) =>
        var account := Account(id, path, name, db.keys[(id, index)]);
        (db.(accounts := db.accounts + [account]), Ok(account))
  }

  /** The first account of every protocol, whatever comes of each. */
  function FirstAccounts(db: Db, w: World, ids: seq<ProtocolId>, saved: ProtocolId -> Option<string>): Db
    decreases |ids|
  {
    if ids == [] then db
    else FirstAccounts(CreateAccount(db, w, ids[0], DerivationPath(ids[0], 0), 0, AccountName(ids[0], 0),
                                     saved(ids[0])).0, w, ids[1..], saved)
  }

  /** Unlocking derives keys only for a wallet without accounts. */
  function Unlock(db: Db, w: World, keys: Result<seq<DerivedKey>, string>, saves: nat -> bool,
                  ids: seq<ProtocolId>, saved: ProtocolId -> Option<string>): (Db, Result<nat, string>) {
    if db.accounts != [] then (db, Ok(|db.accounts|))
    else
      match keys
      case Err(e) => (db, Err("failed to bulk-derive accounts: " + e))
      case Ok(derived) => (FirstAccounts(db.(keys := Stored(db.keys, derived, saves)), w, ids, saved), Ok(|derived|))
  }

  /** The keys of a registered signer: each is stored and becomes an account with the path it came
      with; the first error ends it. */
  function Register(db: Db, w: World, keys: seq<DerivedKey>, done: nat, saved: nat -> Option<string>): (Db,
    Result<(), string>)
    requires done <= |keys|
    decreases |keys| - done
  {
    if done == |keys| then (db, Ok(()))
    else
      var (id, path, key) := keys[done];
      var index := |KeysOf(keys[..done], id)|;
      var stored := db.(keys := db.keys[(id, index) := key]);
      if id !in w.known then Register(stored, w, keys, done + 1, saved)
      else
        match (w.address(id, key), saved(done))
        case (Err(e), _) => (stored, Err(e))
        case (Ok(_), Some(e)) => (stored, Err(e))
        case (Ok(_), None) =>
          Register(stored.(accounts := stored.accounts + [Account(id, path, AccountName(id, index), key)]), w, keys,
                   done + 1, saved)
  }

  /** Accounts made of derived keys with the paths they came with, none of them stored as a pre-derived
      key; the first error ends it, and what was made so far stays. */
  function DeriveAccounts(db: Db, w: World, keys: seq<DerivedKey>, done: nat, saved: nat -> Option<string>): (Db,
    Result<(), string>)
    requires done <= |keys|
    decreases |keys| - done
  {
    if done == |keys| then (db, Ok(()))
    else
      var (id, path, key) := keys[done];
      if id !in w.known then (db, Err("unknown protocol"))
      else
        match (w.address(id, key), saved(done))
        case (Err(e), _) => (db, Err(e))
        case (Ok(_), Some(e)) => (db, Err(e))
        case (Ok(_), None) =>
          var account := Account(id, path, AccountName(id, IndexFromPath(path)), key);
          DeriveAccounts(db.(accounts := db.accounts + [account]), w, keys, done + 1, saved)
  }

  class Paypunk {
    const world: World
    const protocols: seq<ProtocolId>
    var db: Db

    constructor (world: World, protocols: seq<ProtocolId>)
      ensures this.world == world && this.protocols == protocols && db == Db(map[], [])
    {
      this.world, this.protocols := world, protocols;
      db := Db(map[], []);
    }

    method SaveKey(id: ProtocolId, index: nat, key: Bytes, works: bool)
      modifies this
      ensures db == if works then old(db).(keys := old(db).keys[(id, index) := key]) else old(db)
    {
      if works {
        db := db.(keys := db.keys[(id, index) := key]);
      }
    }

    method AddAccount(id: ProtocolId, path: string, index: nat, name: string,
                      saved: Option<string>) returns (r: Result<Account, string>)
      modifies this
      ensures (db, r) == CreateAccount(old(db), world, id, path, index, name, saved)
    {
      for i := 0 to |db.accounts|
        invariant !Exists(db.accounts[..i], id, path)
      {
        if db.accounts[i].protocol == id && db.accounts[i].path == path {
          return Err("account already exists");
        }
      }
      assert db.accounts[..|db.accounts|] == db.accounts;
      if index > MAX_INDEX {
        return Err("account index is beyond pre-derived range (0-29)");
      }
      if (id, index) !in db.keys {
        return Err("no pre-derived viewing key found");
      }
      var key := db.keys[(id, index)];
      if id !in world.known {
        return Err("unknown protocol");
      }
      var address := world.address(id, key);
      if address.Err? {
        return Err(address.error);
      }
      if saved.Some? {
        return Err(saved.value);
      }
      var account := Account(id, path, name, key);
      db := db.(accounts := db.accounts + [account]);
      return Ok(account);
    }

    /** The loop that numbers the keys of each protocol with a counter that starts at minus one. */
    method StoreKeys(keys: seq<DerivedKey>, saves: nat -> bool)
      modifies this
      ensures db == old(db).(keys := Stored(old(db).keys, keys, saves))
    {
      hide DerivationPath;
      var indexes: map<ProtocolId, int> := map[];
      for k := 0 to |keys|
        invariant forall id :: (if id in indexes then indexes[id] else -1) == |KeysOf(keys[..k], id)| - 1
        invariant db == old(db).(keys := Stored(old(db).keys, keys[..k], saves))
      {
        assert keys[..k + 1][..k] == keys[..k];
        var (id, path, key) := keys[k];
        indexes := indexes[id := (if id in indexes then indexes[id] else -1) + 1];
        SaveKey(id, indexes[id], key, saves(k));
      }
      assert keys[..|keys|] == keys;
    }

    method HandleUnlock(keys: Result<seq<DerivedKey>, string>, saves: nat -> bool, saved: ProtocolId -> Option<string>)
      returns (r: Result<nat, string>)
      modifies this
      ensures (db, r) == Unlock(old(db), world, keys, saves, protocols, saved)
    {
      hide Stored, CreateAccount, DerivationPath, AccountName;
      if db.accounts != [] {
        return Ok(|db.accounts|);
      }
      if keys.Err? {
        return Err("failed to bulk-derive accounts: " + keys.error);
      }
      StoreKeys(keys.value, saves);
      ghost var start := db;
      assert protocols[0..] == protocols;
      for i := 0 to |protocols|
        invariant FirstAccounts(db, world, protocols[i..], saved) == FirstAccounts(start, world, protocols, saved)
      {
        var id := protocols[i];
        assert protocols[i..][1..] == protocols[i + 1..];
        var ignored := AddAccount(id, DerivationPath(id, 0), 0, AccountName(id, 0), saved(id));
      }
      return Ok(|keys.value|);
    }

    method RegisterSigner(keys: seq<DerivedKey>, saved: nat -> Option<string>) returns (r: Result<(), string>)
      modifies this
      ensures (db, r) == Register(old(db), world, keys, 0, saved)
    {
      hide AccountName;
      var indexes: map<ProtocolId, int> := map[];
      for k := 0 to |keys|
        invariant forall id :: (if id in indexes then indexes[id] else -1) == |KeysOf(keys[..k], id)| - 1
        invariant Register(db, world, keys, k, saved) == Register(old(db), world, keys, 0, saved)
      {
        assert keys[..k + 1][..k] == keys[..k];
        var (id, path, key) := keys[k];
        indexes := indexes[id := (if id in indexes then indexes[id] else -1) + 1];
        var index := indexes[id];
        SaveKey(id, index, key, true);
        if id in world.known {
          var address := world.address(id, key);
          if address.Err? {
            return Err(address.error);
          }
          if saved(k).Some? {
            return Err(saved(k).value);
          }
          db := db.(accounts := db.accounts + [Account(id, path, AccountName(id, index), key)]);
        }
      }
      return Ok(());
    }

    method BulkDeriveAccounts(keys: seq<DerivedKey>, saved: nat -> Option<string>)
      returns (r: Result<seq<Account>, string>)
      modifies this
      ensures db == DeriveAccounts(old(db), world, keys, 0, saved).0
      ensures r.Ok? <==> DeriveAccounts(old(db), world, keys, 0, saved).1.Ok?
      ensures r.Err? ==> Err(r.error) == DeriveAccounts(old(db), world, keys, 0, saved).1
      ensures r.Ok? ==> db == old(db).(accounts := old(db).accounts + r.value) && |r.value| == |keys|
    {
      hide AccountName, IndexFromPath;
      var accounts := [];
      for k := 0 to |keys|
        invariant DeriveAccounts(db, world, keys, k, saved) == DeriveAccounts(old(db), world, keys, 0, saved)
        invariant db == old(db).(accounts := old(db).accounts + accounts) && |accounts| == k
      {
        var (id, path, key) := keys[k];
        if id !in world.known {
          return Err("unknown protocol");
        }
        var address := world.address(id, key);
        if address.Err? {
          return Err(address.error);
        }
        if saved(k).Some? {
          return Err(saved(k).value);
        }
        var account := Account(id, path, AccountName(id, IndexFromPath(path)), key);
        db := db.(accounts := db.accounts + [account]);
        accounts := accounts + [account];
      }
      return Ok(accounts);
    }
  }

  // ----- Entry i of a protocol is the key of its path i

  ghost function OwnKey(env: Keypunk.Environment, seed: Bytes, id: ProtocolId, account: nat): Result<Bytes, string> {
    Keypunk.ViewingKeyOf(env, seed, id, DerivationPath(id, account))
  }

  /** The keys that the key daemon derives for these paths. */
  ghost predicate Derived(env: Keypunk.Environment, seed: Bytes, paths: seq<Path>, keys: seq<DerivedKey>) {
    && |keys| == |paths|
    && forall k :: 0 <= k < |keys| ==>
                     keys[k].0 == paths[k].0 && keys[k].1 == paths[k].1 &&
                     Keypunk.ViewingKeyOf(env, seed, paths[k].0, paths[k].1) == Ok(keys[k].2)
  }

  lemma {:induction false} BulkKeysAreDerived(env: Keypunk.Environment, seed: Bytes, paths: seq<Path>)
    ensures Keypunk.BulkKeys(env, seed, paths).Ok? ==>
              Derived(env, seed, paths, Keypunk.BulkKeys(env, seed, paths).value)
  {
    hide Keypunk.ViewingKeyOf;
    if paths != [] && Keypunk.BulkKeys(env, seed, paths).Ok? {
      BulkKeysAreDerived(env, seed, paths[1..]);
      var (id, path) := paths[0];
      var key := Keypunk.ViewingKeyOf(env, seed, id, path).value;
      assert Keypunk.BulkKeys(env, seed, paths).value ==
             [(id, path, key)] + Keypunk.BulkKeys(env, seed, paths[1..]).value;
    }
  }

  lemma {:induction false} KeysOfAppend(a: seq<DerivedKey>, b: seq<DerivedKey>, id: ProtocolId)
    ensures KeysOf(a + b, id) == KeysOf(a, id) + KeysOf(b, id)
    decreases |b|
  {
    if b == [] {
      assert a + b == a;
    } else {
      var n := |b| - 1;
      assert (a + b)[..|a + b| - 1] == a + b[..n];
      KeysOfAppend(a, b[..n], id);
    }
  }

  lemma KeysOfOne(key: DerivedKey, id: ProtocolId)
    ensures KeysOf([key], id) == if key.0 == id then [key.2] else []
  {
    assert KeysOf([key][..0], id) == [];
  }

  lemma BlockTail(env: Keypunk.Environment, seed: Bytes, id: ProtocolId, from: nat, n: nat, keys: seq<DerivedKey>)
    requires from < n && Derived(env, seed, PathsOf(id, from, n), keys)
    ensures keys != [] && keys[0].0 == id && OwnKey(env, seed, id, from) == Ok(keys[0].2)
    ensures Derived(env, seed, PathsOf(id, from + 1, n), keys[1..])
  {
    hide Keypunk.ViewingKeyOf, DerivationPath;
  }

  lemma NoPaths(env: Keypunk.Environment, seed: Bytes, id: ProtocolId, n: nat, keys: seq<DerivedKey>)
    requires Derived(env, seed, PathsOf(id, n, n), keys)
    ensures keys == []
  {}

  /** The keys of one block of paths belong to its protocol, one for each account. */
  lemma {:induction false} BlockKeys(env: Keypunk.Environment, seed: Bytes, id: ProtocolId, from: nat, n: nat,
                                     keys: seq<DerivedKey>)
    requires from <= n && Derived(env, seed, PathsOf(id, from, n), keys)
    ensures |KeysOf(keys, id)| == n - from
    ensures forall i :: from <= i < n ==> OwnKey(env, seed, id, i) == Ok(KeysOf(keys, id)[i - from])
    ensures forall other :: other != id ==> KeysOf(keys, other) == []
    decreases n - from
  {
    hide Derived, PathsOf, OwnKey, KeysOf;
    if from == n {
      assert keys == [] by { NoPaths(env, seed, id, n, keys); }
      forall p ensures KeysOf([], p) == [] {
        NoKeys(p);
      }
    } else {
      BlockTail(env, seed, id, from, n, keys);
      var rest := keys[1..];
      BlockKeys(env, seed, id, from + 1, n, rest);
      assert keys == [keys[0]] + rest;
      forall p ensures KeysOf(keys, p) == (if p == id then [keys[0].2] else []) + KeysOf(rest, p) {
        KeysOfAppend([keys[0]], rest, p);
        KeysOfOne(keys[0], p);
      }
    }
  }

  predicate Distinct(ids: seq<ProtocolId>) {
    ids == [] || (ids[0] !in ids[1..] && Distinct(ids[1..]))
  }

  /** For every protocol listed, perhaps more than once, its first n keys are those of its paths 0 to
      n - 1. */
  lemma {:induction false} FirstKeysAreOwn(env: Keypunk.Environment, seed: Bytes, ids: seq<ProtocolId>, n: nat,
                                           keys: seq<DerivedKey>, id: ProtocolId)
    requires Derived(env, seed, Paths(ids, n), keys)
    ensures if id in ids then |KeysOf(keys, id)| >= n else KeysOf(keys, id) == []
    ensures Distinct(ids) && id in ids ==> |KeysOf(keys, id)| == n
    ensures forall i :: 0 <= i < n && i < |KeysOf(keys, id)| ==> OwnKey(env, seed, id, i) == Ok(KeysOf(keys, id)[i])
  {
    hide Keypunk.ViewingKeyOf, DerivationPath, PathsOf, KeysOf, OwnKey;
    if ids == [] {
      assert KeysOf([], id) == [] by { NoKeys(id); }
    } else {
      var block := PathsOf(ids[0], 0, n);
      var m := |block|;
      var a, b := keys[..m], keys[m..];
      assert keys == a + b;
      assert Derived(env, seed, block, a);
      assert Paths(ids, n)[m..] == Paths(ids[1..], n);
      assert Derived(env, seed, Paths(ids[1..], n), b);
      BlockKeys(env, seed, ids[0], 0, n, a);
      FirstKeysAreOwn(env, seed, ids[1..], n, b, id);
      KeysOfAppend(a, b, id);
    }
  }

  lemma NoKeys(id: ProtocolId)
    ensures KeysOf([], id) == []
  {}

  /** The key is that of the path under one of the seeds. */
  ghost predicate KeyOf(env: Keypunk.Environment, seeds: set<Bytes>, id: ProtocolId, path: string, key: Bytes) {
    exists seed <- seeds :: Keypunk.ViewingKeyOf(env, seed, id, path) == Ok(key)
  }

  /** Every pre-derived key that an account can use is the key of the path with its index. */
  ghost predicate Aligned(env: Keypunk.Environment, seeds: set<Bytes>, table: KeyTable) {
    forall id: ProtocolId, i: nat ::
      i <= MAX_INDEX && (id, i) in table ==> KeyOf(env, seeds, id, DerivationPath(id, i), table[(id, i)])
  }

  /** Every account has the viewing key of its own path. */
  ghost predicate Owned(env: Keypunk.Environment, seeds: set<Bytes>, accounts: seq<Account>) {
    forall a <- accounts :: KeyOf(env, seeds, a.protocol, a.path, a.viewingKey)
  }

  lemma OwnKeyOf(env: Keypunk.Environment, seeds: set<Bytes>, seed: Bytes, id: ProtocolId, i: nat, key: Bytes)
    requires seed in seeds && OwnKey(env, seed, id, i) == Ok(key)
    ensures KeyOf(env, seeds, id, DerivationPath(id, i), key)
  {}

  /** Storing what the key daemon derives for the client's list keeps the table aligned, whichever keys
      the database fails to take; when it takes all, every listed protocol has all its keys. */
  lemma StoredIsAligned(env: Keypunk.Environment, seeds: set<Bytes>, seed: Bytes, ids: seq<ProtocolId>,
                        table: KeyTable, keys: seq<DerivedKey>, saves: nat -> bool)
    requires Aligned(env, seeds, table) && seed in seeds && Derived(env, seed, Paths(ids, UNLOCK_COUNT), keys)
    ensures Aligned(env, seeds, Stored(table, keys, saves))
    ensures (forall k :: 0 <= k < |keys| ==> saves(k)) ==>
              forall id, i: nat :: id in ids && i < UNLOCK_COUNT ==> (id, i) in Stored(table, keys, saves)
  {
    hide Stored, KeysOf, Derived, OwnKey, Paths, KeyOf, DerivationPath;
    forall id: ProtocolId, i: nat | i <= MAX_INDEX
      ensures (id, i) in Stored(table, keys, saves) ==>
                KeyOf(env, seeds, id, DerivationPath(id, i), Stored(table, keys, saves)[(id, i)])
      ensures (forall k :: 0 <= k < |keys| ==> saves(k)) && id in ids ==> (id, i) in Stored(table, keys, saves)
    {
      FirstKeysAreOwn(env, seed, ids, UNLOCK_COUNT, keys, id);
      StoredEntry(table, keys, saves, id, i);
      if i < |KeysOf(keys, id)| {
        OwnKeyOf(env, seeds, seed, id, i, KeysOf(keys, id)[i]);
      }
    }
  }

  /** An account made from an entry that is the key of its index under a seed has the key of its own path
      under that seed exactly when the path given has the same key as the path of the index given. */
  lemma CreatedIsOwned(env: Keypunk.Environment, seed: Bytes, db: Db, w: World, id: ProtocolId, path: string,
                       index: nat, name: string, saved: Option<string>)
    ensures
      var (db', r) := CreateAccount(db, w, id, path, index, name, saved);
      && db'.keys == db.keys
      && (r.Err? ==> db' == db)
      && (r.Ok? ==>
            && index <= MAX_INDEX && (id, index) in db.keys && db'.accounts == db.accounts + [r.value]
            && r.value == Account(id, path, name, db.keys[(id, index)])
            && (OwnKey(env, seed, id, index) == Ok(r.value.viewingKey) ==>
                  (Keypunk.ViewingKeyOf(env, seed, id, path) == Ok(r.value.viewingKey) <==>
                   Keypunk.ViewingKeyOf(env, seed, id, path) == OwnKey(env, seed, id, index))))
  {
    hide Keypunk.ViewingKeyOf, DerivationPath, Exists;
  }

  /** With the path of its index it has its own key under one of the seeds of the table. */
  lemma DefaultIsOwned(env: Keypunk.Environment, seeds: set<Bytes>, db: Db, w: World, id: ProtocolId, index: nat,
                       saved: Option<string>)
    requires Aligned(env, seeds, db.keys) && Owned(env, seeds, db.accounts)
    ensures
      var db' := CreateAccount(db, w, id, DerivationPath(id, index), index, AccountName(id, index), saved).0;
      db'.keys == db.keys && Owned(env, seeds, db'.accounts)
  {
    hide CreateAccount, DerivationPath, AccountName, KeyOf;
    CreatedIsOwned(env, [], db, w, id, DerivationPath(id, index), index, AccountName(id, index), saved);
  }

  // ----- Runs of the wallet

  /** The clients' commands: they list paths to unlock, create an account with the path of its index, or
      create the account after those of a protocol, or register a signer with the first accounts, or make
      accounts of any paths. Keys are derived from a seed, or the request for them fails. */
  datatype Command =
    | UnlockCommand(seed: Bytes, ids: seq<ProtocolId>, derives: bool, saves: nat -> bool,
                    firsts: ProtocolId -> Option<string>)
    | CreateCommand(id: ProtocolId, index: nat, saved: Option<string>)
    | NextCommand(id: ProtocolId, saved: Option<string>)
    | RegisterCommand(seed: Bytes, ids: seq<ProtocolId>, derives: bool, outcomes: nat -> Option<string>)
    | BulkCommand(seed: Bytes, paths: seq<Path>, derives: bool, outcomes: nat -> Option<string>)

  function CountOf(accounts: seq<Account>, id: ProtocolId): nat {
    if accounts == [] then 0
    else
      var n := |accounts| - 1;
      CountOf(accounts[..n], id) + if accounts[n].protocol == id then 1 else 0
  }

  function Step(env: Keypunk.Environment, w: World, protocols: seq<ProtocolId>, db: Db, c: Command): Db {
    match c
    case UnlockCommand(seed, ids, derives, saves, saved) =>
      var keys := if derives then Keypunk.BulkKeys(env, seed, Paths(ids, UNLOCK_COUNT)) else Err("no connection");
      Unlock(db, w, keys, saves, protocols, saved).0
    case CreateCommand(id, index, saved) =>
      CreateAccount(db, w, id, DerivationPath(id, index), index, AccountName(id, index), saved).0
    case NextCommand(id, saved) =>
      var index := CountOf(db.accounts, id);
      CreateAccount(db, w, id, DerivationPath(id, index), index, AccountName(id, index), saved).0
    case RegisterCommand(seed, ids, derives, saved) =>
      var keys := Keypunk.BulkKeys(env, seed, Paths(ids, REGISTER_COUNT));
      if derives && keys.Ok? then Register(db, w, keys.value, 0, saved).0 else db
    case BulkCommand(seed, paths, derives, saved) =>
      var keys := Keypunk.BulkKeys(env, seed, paths);
      if derives && keys.Ok? then DeriveAccounts(db, w, keys.value, 0, saved).0 else db
  }

  function After(env: Keypunk.Environment, w: World, protocols: seq<ProtocolId>, run: seq<Command>): Db {
    if run == [] then Db(map[], [])
    else Step(env, w, protocols, After(env, w, protocols, run[..|run| - 1]), run[|run| - 1])
  }

  /** The seed that keys are derived from by a command, and by the commands of a run. */
  function SeedOf(c: Command): set<Bytes> {
    match c
    case UnlockCommand(seed, _, _, _, _) => {seed}
    case RegisterCommand(seed, _, _, _) => {seed}
    case BulkCommand(seed, _, _, _) => {seed}
    case _ => {}
  }

  function Seeds(run: seq<Command>): set<Bytes> {
    if run == [] then {} else Seeds(run[..|run| - 1]) + SeedOf(run[|run| - 1])
  }

  lemma {:induction false} FirstAccountsOwned(env: Keypunk.Environment, seeds: set<Bytes>, db: Db, w: World,
                                              ids: seq<ProtocolId>, saved: ProtocolId -> Option<string>)
    requires Aligned(env, seeds, db.keys) && Owned(env, seeds, db.accounts)
    ensures FirstAccounts(db, w, ids, saved).keys == db.keys
    ensures Owned(env, seeds, FirstAccounts(db, w, ids, saved).accounts)
    decreases |ids|
  {
    hide KeyOf, DerivationPath, CreateAccount, AccountName, Aligned, Owned;
    if ids != [] {
      var id := ids[0];
      DefaultIsOwned(env, seeds, db, w, id, 0, saved(id));
      var next := CreateAccount(db, w, id, DerivationPath(id, 0), 0, AccountName(id, 0), saved(id)).0;
      FirstAccountsOwned(env, seeds, next, w, ids[1..], saved);
    }
  }

  function Always(k: nat): bool {
    true
  }

  lemma OneMoreOwned(env: Keypunk.Environment, seeds: set<Bytes>, seed: Bytes, accounts: seq<Account>, a: Account)
    requires Owned(env, seeds, accounts) && seed in seeds
    requires Keypunk.ViewingKeyOf(env, seed, a.protocol, a.path) == Ok(a.viewingKey)
    ensures Owned(env, seeds, accounts + [a])
  {
    hide Keypunk.ViewingKeyOf;
  }

  /** Registration stores a prefix of the keys and makes accounts of them. */
  lemma {:induction false} RegisterStores(env: Keypunk.Environment, seeds: set<Bytes>, seed: Bytes, w: World,
                                          paths: seq<Path>, table: KeyTable, db: Db,
                                          keys: seq<DerivedKey>, done: nat, saved: nat -> Option<string>)
    requires done <= |keys| && seed in seeds && Derived(env, seed, paths, keys) && Owned(env, seeds, db.accounts)
    requires db.keys == Stored(table, keys[..done], Always)
    ensures Owned(env, seeds, Register(db, w, keys, done, saved).0.accounts)
    ensures exists m :: done <= m <= |keys| && (Register(db, w, keys, done, saved).1.Ok? ==> m == |keys|) &&
                        Register(db, w, keys, done, saved).0.keys == Stored(table, keys[..m], Always)
    decreases |keys| - done
  {
    hide Keypunk.ViewingKeyOf, AccountName, KeysOf, Owned;
    if done < |keys| {
      var (id, path, key) := keys[done];
      assert keys[..done + 1][..done] == keys[..done];
      var index := |KeysOf(keys[..done], id)|;
      var stored := db.(keys := db.keys[(id, index) := key]);
      assert stored.keys == Stored(table, keys[..done + 1], Always);
      if id !in w.known {
        RegisterStores(env, seeds, seed, w, paths, table, stored, keys, done + 1, saved);
      } else if w.address(id, key).Ok? && saved(done).None? {
        var account := Account(id, path, AccountName(id, index), key);
        OneMoreOwned(env, seeds, seed, db.accounts, account);
        var next := stored.(accounts := stored.accounts + [account]);
        RegisterStores(env, seeds, seed, w, paths, table, next, keys, done + 1, saved);
      }
    }
  }

  /** Accounts made in bulk have the keys of the paths they came with, and the table stays. */
  lemma {:induction false} DerivedAreOwned(env: Keypunk.Environment, seeds: set<Bytes>, seed: Bytes, w: World,
                                           paths: seq<Path>, db: Db, keys: seq<DerivedKey>, done: nat,
                                           saved: nat -> Option<string>)
    requires done <= |keys| && seed in seeds && Derived(env, seed, paths, keys) && Owned(env, seeds, db.accounts)
    ensures Owned(env, seeds, DeriveAccounts(db, w, keys, done, saved).0.accounts)
    ensures DeriveAccounts(db, w, keys, done, saved).0.keys == db.keys
    decreases |keys| - done
  {
    hide Keypunk.ViewingKeyOf, AccountName, IndexFromPath, Owned;
    if done < |keys| {
      var (id, path, key) := keys[done];
      if id in w.known && w.address(id, key).Ok? && saved(done).None? {
        var account := Account(id, path, AccountName(id, IndexFromPath(path)), key);
        OneMoreOwned(env, seeds, seed, db.accounts, account);
        DerivedAreOwned(env, seeds, seed, w, paths, db.(accounts := db.accounts + [account]), keys, done + 1, saved);
      }
    }
  }

  /** A prefix of what is derived for distinct protocols overwrites the first entries of those protocols
      with keys of its seed, and keeps all others. */
  lemma PrefixEntry(env: Keypunk.Environment, seed: Bytes, ids: seq<ProtocolId>, n: nat, table: KeyTable,
                    keys: seq<DerivedKey>, m: nat, id: ProtocolId, i: nat)
    requires Distinct(ids) && Derived(env, seed, Paths(ids, n), keys) && m <= |keys|
    ensures
      var t := Stored(table, keys[..m], Always);
      if i < |KeysOf(keys[..m], id)| then id in ids && i < n && (id, i) in t &&
                                          OwnKey(env, seed, id, i) == Ok(t[(id, i)])
      else SameEntry(t, table, (id, i))
    ensures m == |keys| ==> |KeysOf(keys[..m], id)| == if id in ids then n else 0
  {
    hide Stored, KeysOf, Derived, OwnKey, Paths;
    FirstKeysAreOwn(env, seed, ids, n, keys, id);
    StoredEntry(table, keys[..m], Always, id, i);
    KeysOfAppend(keys[..m], keys[m..], id);
    assert keys == keys[..m] + keys[m..];
    if m == |keys| {
      assert keys[..m] == keys;
    }
  }

  lemma PrefixIsAligned(env: Keypunk.Environment, seeds: set<Bytes>, seed: Bytes, ids: seq<ProtocolId>, n: nat,
                        table: KeyTable, keys: seq<DerivedKey>, m: nat)
    requires Aligned(env, seeds, table) && seed in seeds && Distinct(ids) &&
             Derived(env, seed, Paths(ids, n), keys) && m <= |keys|
    ensures Aligned(env, seeds, Stored(table, keys[..m], Always))
  {
    hide Stored, KeysOf, Derived, OwnKey, Paths, KeyOf, DerivationPath;
    forall id: ProtocolId, i: nat | i <= MAX_INDEX && (id, i) in Stored(table, keys[..m], Always)
      ensures KeyOf(env, seeds, id, DerivationPath(id, i), Stored(table, keys[..m], Always)[(id, i)])
    {
      PrefixEntry(env, seed, ids, n, table, keys, m, id, i);
      if i < |KeysOf(keys[..m], id)| {
        OwnKeyOf(env, seeds, seed, id, i, Stored(table, keys[..m], Always)[(id, i)]);
      }
    }
  }

  lemma MoreSeeds(env: Keypunk.Environment, seeds: set<Bytes>, more: set<Bytes>, db: Db)
    requires Aligned(env, seeds, db.keys) && Owned(env, seeds, db.accounts) && seeds <= more
    ensures Aligned(env, more, db.keys) && Owned(env, more, db.accounts)
  {
    hide Keypunk.ViewingKeyOf, DerivationPath;
  }

  lemma StepKeepsOwned(env: Keypunk.Environment, seeds: set<Bytes>, w: World, protocols: seq<ProtocolId>, db: Db,
                       c: Command)
    requires Aligned(env, seeds, db.keys) && Owned(env, seeds, db.accounts) && SeedOf(c) <= seeds
    requires c.RegisterCommand? ==> Distinct(c.ids)
    ensures Aligned(env, seeds, Step(env, w, protocols, db, c).keys)
    ensures Owned(env, seeds, Step(env, w, protocols, db, c).accounts)
  {
    hide KeyOf, DerivationPath, CreateAccount, AccountName, Aligned, Owned, Keypunk.BulkKeys, Stored, FirstAccounts,
      Paths, CountOf, Register, Distinct, DeriveAccounts, Derived;
    match c
    case UnlockCommand(seed, ids, derives, saves, saved) =>
      var keys := Keypunk.BulkKeys(env, seed, Paths(ids, UNLOCK_COUNT));
      if derives && keys.Ok? {
        BulkKeysAreDerived(env, seed, Paths(ids, UNLOCK_COUNT));
        StoredIsAligned(env, seeds, seed, ids, db.keys, keys.value, saves);
        FirstAccountsOwned(env, seeds, db.(keys := Stored(db.keys, keys.value, saves)), w, protocols, saved);
      }
    case CreateCommand(id, index, saved) => DefaultIsOwned(env, seeds, db, w, id, index, saved);
    case NextCommand(id, saved) => DefaultIsOwned(env, seeds, db, w, id, CountOf(db.accounts, id), saved);
    case RegisterCommand(seed, ids, derives, saved) =>
      var keys := Keypunk.BulkKeys(env, seed, Paths(ids, REGISTER_COUNT));
      if derives && keys.Ok? {
        BulkKeysAreDerived(env, seed, Paths(ids, REGISTER_COUNT));
        NothingStored(db.keys, keys.value);
        RegisterStores(env, seeds, seed, w, Paths(ids, REGISTER_COUNT), db.keys, db, keys.value, 0, saved);
        var m :| 0 <= m <= |keys.value| &&
                 Register(db, w, keys.value, 0, saved).0.keys == Stored(db.keys, keys.value[..m], Always);
        PrefixIsAligned(env, seeds, seed, ids, REGISTER_COUNT, db.keys, keys.value, m);
      }
    case BulkCommand(seed, paths, derives, saved) =>
      var keys := Keypunk.BulkKeys(env, seed, paths);
      if derives && keys.Ok? {
        BulkKeysAreDerived(env, seed, paths);
        DerivedAreOwned(env, seeds, seed, w, paths, db, keys.value, 0, saved);
      }
  }

  lemma NothingStored(table: KeyTable, keys: seq<DerivedKey>)
    ensures Stored(table, keys[..0], Always) == table
  {}

  /** In every run, whatever seeds its commands derive keys from, every account has the viewing key of its
      own derivation path under one of those seeds. */
  lemma {:induction false} AccountsOwnTheirKeys(env: Keypunk.Environment, w: World, protocols: seq<ProtocolId>,
                                                run: seq<Command>)
    requires forall i :: 0 <= i < |run| ==> (run[i].RegisterCommand? ==> Distinct(run[i].ids))
    ensures Aligned(env, Seeds(run), After(env, w, protocols, run).keys)
    ensures Owned(env, Seeds(run), After(env, w, protocols, run).accounts)
  {
    hide Step, Aligned, Owned, Distinct, SeedOf;
    if run == [] {
      NothingAligned(env);
    } else {
      var n := |run| - 1;
      AccountsOwnTheirKeys(env, w, protocols, run[..n]);
      MoreSeeds(env, Seeds(run[..n]), Seeds(run), After(env, w, protocols, run[..n]));
      StepKeepsOwned(env, Seeds(run), w, protocols, After(env, w, protocols, run[..n]), run[n]);
    }
  }

  lemma NothingAligned(env: Keypunk.Environment)
    ensures Aligned(env, {}, map[]) && Owned(env, {}, [])
  {}

  /** With one seed it is the key under that seed. */
  lemma OneSeedOwned(env: Keypunk.Environment, seed: Bytes, w: World, protocols: seq<ProtocolId>, run: seq<Command>)
    requires forall i :: 0 <= i < |run| ==> (run[i].RegisterCommand? ==> Distinct(run[i].ids))
    requires Seeds(run) <= {seed}
    ensures forall a <- After(env, w, protocols, run).accounts ::
              Keypunk.ViewingKeyOf(env, seed, a.protocol, a.path) == Ok(a.viewingKey)
  {
    hide After, Keypunk.ViewingKeyOf, Distinct, Seeds, Aligned;
    AccountsOwnTheirKeys(env, w, protocols, run);
  }

  /** A wallet unlocked with one seed, and a signer registered with another: an account then made with the
      path of its index has its key under the first seed exactly when the signer's keys do not reach its
      protocol, or its index is 2 or more, or both seeds give it the same key. */
  lemma OtherSignerIff(env: Keypunk.Environment, seed: Bytes, other: Bytes, w: World, ids: seq<ProtocolId>, db: Db,
                       keys: seq<DerivedKey>, outcomes: nat -> Option<string>, id: ProtocolId, index: nat,
                       saved: Option<string>)
    requires Aligned(env, {seed}, db.keys) && Distinct(ids) && Derived(env, other, Paths(ids, REGISTER_COUNT), keys)
    requires Register(db, w, keys, 0, outcomes).1.Ok?
    requires CreateAccount(Register(db, w, keys, 0, outcomes).0, w, id, DerivationPath(id, index), index,
                           AccountName(id, index), saved).1.Ok?
    ensures
      var key := CreateAccount(Register(db, w, keys, 0, outcomes).0, w, id, DerivationPath(id, index), index,
                               AccountName(id, index), saved).1.value.viewingKey;
      OwnKey(env, seed, id, index) == Ok(key) <==>
      id !in ids || index >= REGISTER_COUNT || OwnKey(env, seed, id, index) == OwnKey(env, other, id, index)
  {
    hide KeyOf, DerivationPath, CreateAccount, AccountName, Owned, Stored, Paths, Register, Distinct, Derived,
      KeysOf, OwnKey;
    var db' := Register(db, w, keys, 0, outcomes).0;
    NothingStored(db.keys, keys);
    RegisterKeys(db, w, keys, 0, outcomes, db.keys);
    CreatedIsOwned(env, seed, db', w, id, DerivationPath(id, index), index, AccountName(id, index), saved);
    assert keys[..|keys|] == keys;
    PrefixEntry(env, other, ids, REGISTER_COUNT, db.keys, keys, |keys|, id, index);
    if id !in ids || index >= REGISTER_COUNT {
      OneSeedKey(env, seed, id, index, db.keys[(id, index)]);
    }
  }

  lemma OneSeedKey(env: Keypunk.Environment, seed: Bytes, id: ProtocolId, i: nat, key: Bytes)
    ensures KeyOf(env, {seed}, id, DerivationPath(id, i), key) <==> OwnKey(env, seed, id, i) == Ok(key)
  {}

  /** A protocol that is listed twice gets the key of its path 0 at index 2. */
  lemma RepeatedProtocol(env: Keypunk.Environment, seed: Bytes, table: KeyTable, keys: seq<DerivedKey>, id: ProtocolId)
    requires Derived(env, seed, Paths([id, id], REGISTER_COUNT), keys)
    ensures (id, 2) in Stored(table, keys, Always) &&
            OwnKey(env, seed, id, 0) == Ok(Stored(table, keys, Always)[(id, 2)])
  {
    hide DerivationPath, Keypunk.ViewingKeyOf, KeysOf, Stored;
    var block := PathsOf(id, 0, 2);
    assert block == [(id, DerivationPath(id, 0)), (id, DerivationPath(id, 1))] by { TwoPaths(id); }
    assert Paths([id, id], 2) == block + block by { TwoBlocks(id); }
    var a, b := keys[..2], keys[2..];
    assert keys == a + b && Derived(env, seed, block, a) && Derived(env, seed, block, b);
    BlockKeys(env, seed, id, 0, 2, a);
    BlockKeys(env, seed, id, 0, 2, b);
    KeysOfAppend(a, b, id);
    StoredEntry(table, keys, Always, id, 2);
  }

  lemma TwoPaths(id: ProtocolId)
    ensures PathsOf(id, 0, 2) == [(id, DerivationPath(id, 0)), (id, DerivationPath(id, 1))]
  {
    hide DerivationPath;
    assert PathsOf(id, 1, 2) == [(id, DerivationPath(id, 1))] + PathsOf(id, 2, 2);
  }

  lemma TwoBlocks(id: ProtocolId)
    ensures Paths([id, id], 2) == PathsOf(id, 0, 2) + PathsOf(id, 0, 2)
  {
    hide PathsOf, DerivationPath;
    assert [id, id][1..] == [id];
    assert Paths([id], 2) == PathsOf(id, 0, 2) + Paths([], 2);
  }

  lemma {:induction false} RegisterKeys(db: Db, w: World, keys: seq<DerivedKey>, done: nat,
                                        outcomes: nat -> Option<string>, table: KeyTable)
    requires done <= |keys| && db.keys == Stored(table, keys[..done], Always) &&
             Register(db, w, keys, done, outcomes).1.Ok?
    ensures Register(db, w, keys, done, outcomes).0.keys == Stored(table, keys, Always)
    decreases |keys| - done
  {
    hide AccountName, KeysOf;
    assert keys[..|keys|] == keys;
    if done < |keys| {
      var (id, path, key) := keys[done];
      assert keys[..done + 1][..done] == keys[..done];
      var index := |KeysOf(keys[..done], id)|;
      var stored := db.(keys := db.keys[(id, index) := key]);
      if id !in w.known {
        RegisterKeys(stored, w, keys, done + 1, outcomes, table);
      } else {
        var account := Account(id, path, AccountName(id, index), key);
        RegisterKeys(stored.(accounts := stored.accounts + [account]), w, keys, done + 1, outcomes, table);
      }
    }
  }

  // ----- The next account is always a new one

  /** The accounts of each protocol are those of its paths 0, 1, 2 and so on, in order. */
  ghost predicate Consecutive(accounts: seq<Account>) {
    forall j :: 0 <= j < |accounts| ==>
                  accounts[j].path == DerivationPath(accounts[j].protocol, CountOf(accounts[..j], accounts[j].protocol))
  }

  lemma {:induction false} CountGrows(accounts: seq<Account>, id: ProtocolId, j: nat)
    requires j < |accounts| && accounts[j].protocol == id
    ensures CountOf(accounts[..j], id) < CountOf(accounts, id)
  {
    var n := |accounts| - 1;
    if j < n {
      assert accounts[..n][..j] == accounts[..j];
      CountGrows(accounts[..n], id, j);
    }
  }

  lemma NextIsNew(accounts: seq<Account>, id: ProtocolId)
    requires Consecutive(accounts)
    ensures !Exists(accounts, id, DerivationPath(id, CountOf(accounts, id)))
  {
    hide DerivationPath, CountOf;
    forall j | 0 <= j < |accounts| && accounts[j].protocol == id
      ensures accounts[j].path != DerivationPath(id, CountOf(accounts, id))
    {
      CountGrows(accounts, id, j);
      PathsDiffer(id, CountOf(accounts[..j], id), CountOf(accounts, id));
    }
  }

  lemma {:induction false} FirstIsZero(accounts: seq<Account>, id: ProtocolId)
    requires Consecutive(accounts) && CountOf(accounts, id) > 0
    ensures Exists(accounts, id, DerivationPath(id, 0))
  {
    hide DerivationPath;
    var n := |accounts| - 1;
    if CountOf(accounts[..n], id) > 0 {
      forall j | 0 <= j < n ensures accounts[..n][..j] == accounts[..j] {}
      FirstIsZero(accounts[..n], id);
      var i :| 0 <= i < n && accounts[..n][i].protocol == id && accounts[..n][i].path == DerivationPath(id, 0);
      assert accounts[i].protocol == id;
    } else {
      assert accounts[n].protocol == id && accounts[n].path == DerivationPath(id, 0);
    }
  }

  lemma AppendConsecutive(accounts: seq<Account>, a: Account)
    requires Consecutive(accounts) && a.path == DerivationPath(a.protocol, CountOf(accounts, a.protocol))
    ensures Consecutive(accounts + [a])
  {
    hide DerivationPath, CountOf;
    var all := accounts + [a];
    forall j | 0 <= j < |all|
      ensures all[j].path == DerivationPath(all[j].protocol, CountOf(all[..j], all[j].protocol))
    {
      assert all[..j] == accounts[..j];
      assert accounts[..|accounts|] == accounts;
    }
  }

  lemma {:induction false} FirstAccountsConsecutive(db: Db, w: World, ids: seq<ProtocolId>,
                                                    saved: ProtocolId -> Option<string>)
    requires Consecutive(db.accounts)
    ensures Consecutive(FirstAccounts(db, w, ids, saved).accounts)
    decreases |ids|
  {
    hide DerivationPath, CountOf, AccountName, Consecutive, Exists;
    if ids != [] {
      var id := ids[0];
      var next := CreateAccount(db, w, id, DerivationPath(id, 0), 0, AccountName(id, 0), saved(id)).0;
      if next != db {
        if CountOf(db.accounts, id) > 0 {
          FirstIsZero(db.accounts, id);
        }
        AppendConsecutive(db.accounts, next.accounts[|db.accounts|]);
      }
      FirstAccountsConsecutive(next, w, ids[1..], saved);
    }
  }

  /** While accounts are made only by unlocking and by asking for the next one, asking for the next one
      is never refused as a duplicate, and the accounts of a protocol are numbered without a gap. */
  lemma {:induction false} NextAccountsAreConsecutive(env: Keypunk.Environment, w: World,
                                                      protocols: seq<ProtocolId>, run: seq<Command>, id: ProtocolId)
    requires forall i :: 0 <= i < |run| ==> run[i].UnlockCommand? || run[i].NextCommand?
    ensures
      var db := After(env, w, protocols, run);
      Consecutive(db.accounts) && !Exists(db.accounts, id, DerivationPath(id, CountOf(db.accounts, id)))
  {
    hide DerivationPath, CountOf, AccountName, Consecutive, Exists, Stored, Keypunk.BulkKeys, FirstAccounts, Paths;
    var db := After(env, w, protocols, run);
    if run == [] {
      assert Consecutive(db.accounts) by { NoneConsecutive(); }
    } else {
      var n := |run| - 1;
      var before := After(env, w, protocols, run[..n]);
      NextAccountsAreConsecutive(env, w, protocols, run[..n], id);
      match run[n]
      case UnlockCommand(seed, ids, derives, saves, saved) =>
        var keys := if derives then Keypunk.BulkKeys(env, seed, Paths(ids, UNLOCK_COUNT)) else Err("no connection");
        if before.accounts == [] && keys.Ok? {
          FirstAccountsConsecutive(before.(keys := Stored(before.keys, keys.value, saves)), w, protocols, saved);
        }
      case NextCommand(p, saved) =>
        if db != before {
          AppendConsecutive(before.accounts, db.accounts[|before.accounts|]);
        }
    }
    NextIsNew(db.accounts, id);
  }

  lemma NoneConsecutive()
    ensures Consecutive([])
  {}

  // ----- The index read back from a path

  /** The part before the last quote, after its last slash, as a number; zero where there is none. */
  function IndexFromPath(path: string): nat {
    var parts := Split(path, '\'');
    if |parts| < 2 then 0
    else
      var names := Split(parts[|parts| - 2], '/');
      match Decimal.ParseUnsigned(names[|names| - 1], U32_MAX)
      case None => 0
      case Some(n) => n
  }

  /** Read back from a default path the index is the account's on Zcash, and always zero on Ethereum. */
  lemma IndexFromDefaultPath(id: ProtocolId, account: nat)
    requires account <= U32_MAX
    ensures IndexFromPath(DerivationPath(id, account)) == match id case Zcash => account case Ethereum => 0
    ensures IndexFromPath(DerivationPath(id, account)) == account <==> id == Zcash || account == 0
  {
    hide Decimal.Digits, Decimal.ParseUnsigned, Split;
    var d := Decimal.Digits(account);
    Decimal.DigitsAreDigits(account);
    Decimal.ParseDigits(account, U32_MAX);
    match id
    case Zcash =>
      var tail := "/" + d + "'";
      SplitFirst("/" + d, '\'', "");
      assert tail == ("/" + d) + ['\''] + "";
      SplitFirst("/133", '\'', tail);
      SplitFirst("m/44", '\'', "/133" + ['\''] + tail);
      assert DerivationPath(id, account) == "m/44" + ['\''] + ("/133" + ['\''] + tail);
      NoSeparator("", '\'');
      SplitTwo("", '/', d);
      assert "/" + d == "" + ['/'] + d;
    case Ethereum =>
      var tail := "/0/" + d;
      NoSeparator(tail, '\'');
      SplitFirst("/0", '\'', tail);
      SplitFirst("/60", '\'', "/0" + ['\''] + tail);
      SplitFirst("m/44", '\'', "/60" + ['\''] + ("/0" + ['\''] + tail));
      assert DerivationPath(id, account) == "m/44" + ['\''] + ("/60" + ['\''] + ("/0" + ['\''] + tail));
      SplitTwo("", '/', "0");
      assert "/0" == "" + ['/'] + "0";
      Decimal.ParseDigits(0, U32_MAX);
      assert Decimal.Digits(0) == "0" by { ZeroDigit(); }
  }

  lemma ZeroDigit()
    ensures Decimal.Digits(0) == "0"
  {}
}
