/** The chunked chain synchronisation of the Zcash wallet: the scan actor, which fetches, and the
    wallet actor, which scans and records the chain tip. Blocks are represented by their heights, the
    wallet database by its tip and the list of scans committed to it. */
module ChainSync {
  import opened Wrappers

  const CHUNK := 20

  /** Heights for which the 32-bit sums of the chunk loop do not overflow. */
  const MAX_HEIGHT := 0xFFFF_FFFF - CHUNK

  type Height = h: int | 0 <= h <= MAX_HEIGHT

  /** A committed scan, and whether the tip was brought up to its end. */
  datatype Scan = Scan(blocks: seq<nat>, recorded: bool)

  /** What becomes of a chunk once its blocks are fetched. A failing update of the tip comes after the
      scan is committed; whether the tip has moved by then is up to the wallet library. */
  datatype Outcome =
    | TreeStateFails(error: string)
    | ScanFails(error: string)
    | TipFails(error: string, moved: bool)
    | Scanned

  /** The answers of the server and of the wallet library during one synchronisation: the latest
      height, the error of the query for the tip if there is one, the blocks of a range, and the outcome
      of each chunk. */
  datatype World = World(latest: Result<Height, string>, tipError: Option<string>,
                         fetch: (nat, nat) -> Result<seq<nat>, string>, outcome: nat -> Outcome)

  datatype Wallet = Wallet(tip: Height, scans: seq<Scan>, accounts: seq<Height>)

  function Range(from: int, last: int): (r: seq<nat>)
    requires 0 <= from
    ensures |r| == (if last < from then 0 else last + 1 - from)
    ensures forall i :: 0 <= i < |r| ==> r[i] == from + i
  {
    seq(if last < from then 0 else last + 1 - from, i requires 0 <= i => from + i)
  }

  function Min(a: int, b: int): int {
    if a <= b then a else b
  }

  function Max(a: int, b: int): int {
    if a <= b then b else a
  }

  // ----- The wallet actor

  /** The blocks that the in-memory source hands to the scanner. */
  function Selected(blocks: seq<nat>, from: nat, limit: nat): (r: seq<nat>) {
    if blocks == [] || limit == 0 then []
    else if blocks[0] >= from then [blocks[0]] + Selected(blocks[1..], from, limit - 1)
    else Selected(blocks[1..], from, limit)
  }

  lemma {:induction false} SelectedAll(blocks: seq<nat>, from: nat, limit: nat)
    requires |blocks| <= limit && forall i :: 0 <= i < |blocks| ==> from <= blocks[i]
    ensures Selected(blocks, from, limit) == blocks
  {
    if blocks != [] {
      SelectedAll(blocks[1..], from, limit - 1);
    }
  }

  function ScanBlocks(w: Wallet, blocks: seq<nat>, from: nat, target: Height, outcome: Outcome)
    : (Wallet, Option<string>)
    requires !outcome.TreeStateFails?
  {
    var selected := Selected(blocks, from, |blocks|);
    match outcome
    case ScanFails(e) => (w, Some(e))
    case TipFails(e, false) => (w.(scans := w.scans + [Scan(selected, false)]), Some(e))
    case TipFails(e, true) => (w.(scans := w.scans + [Scan(selected, true)], tip := Max(w.tip, target)), Some(e))
    case Scanned => (w.(scans := w.scans + [Scan(selected, true)], tip := Max(w.tip, target)), None)
  }

  function MinBirthday(accounts: seq<Height>): Height {
    if accounts == [] then 0
    else if |accounts| == 1 then accounts[0]
    else Min(accounts[0], MinBirthday(accounts[1..]))
  }

  /** How the wallet library takes a viewing key: the key or a request to the server is refused; it is
      new; or its import fails. Then the wallet is rewound, or fails to be, and the account is looked up
      as one known already, and found or not. */
  datatype Import = Rejected(error: string) | New | TruncateFails(error: string) | Known | NotFound(error: string)

  /** A birthday of zero stands for height 2 on a test chain and for the latest height elsewhere. */
  function ResolveBirthday(birthday: Height, regtest: bool, latest: Height): Height {
    if birthday != 0 then birthday else if regtest then 2 else latest
  }

  function UpTo(blocks: seq<nat>, h: nat): seq<nat> {
    if blocks == [] then []
    else if blocks[0] <= h then [blocks[0]] + UpTo(blocks[1..], h)
    else UpTo(blocks[1..], h)
  }

  function TruncateScans(scans: seq<Scan>, h: nat): seq<Scan> {
    if scans == [] then [] else [scans[0].(blocks := UpTo(scans[0].blocks, h))] + TruncateScans(scans[1..], h)
  }

  /** Forgets what was scanned above a height. */
  function Truncate(w: Wallet, h: Height): Wallet {
    w.(tip := Min(w.tip, h), scans := TruncateScans(w.scans, h))
  }

  function Register(w: Wallet, birthday: Height, regtest: bool, latest: Height, answer: Import)
    : (Wallet, Option<string>)
  {
    var b := ResolveBirthday(birthday, regtest, latest);
    match answer
    case Rejected(e) => (w, Some(e))
    case TruncateFails(e) => (w, Some(e))
    case New => (w.(accounts := w.accounts + [b]), None)
    case Known => (Truncate(w, Max(b - 1, 0)).(accounts := w.accounts + [b]), None)
    case NotFound(e) => (Truncate(w, Max(b - 1, 0)), Some(e))
  }

  class WalletDbActor {
    var db: Wallet
    var isSyncing: bool
    var currentHeight: nat
    var targetHeight: nat

    constructor ()
      ensures db == Wallet(0, [], [])
    {
      db := Wallet(0, [], []);
      isSyncing, currentHeight, targetHeight := false, 0, 0;
    }

    method GetChainTip(failure: Option<string>) returns (tip: Result<Height, string>)
      ensures failure.Some? ==> tip == Err(failure.value)
      ensures failure.None? ==> tip == Ok(db.tip)
    {
      if failure.Some? {
        return Err(failure.value);
      }
      return Ok(db.tip);
    }

    method GetMinBirthday() returns (min: Height)
      ensures min == MinBirthday(db.accounts)
      ensures db.accounts != [] ==> min in db.accounts && forall b <- db.accounts :: min <= b
      ensures db.accounts == [] ==> min == 0
    {
      var n := |db.accounts|;
      if n == 0 {
        return 0;
      }
      min := db.accounts[n - 1];
      var i := n - 1;
      assert db.accounts[i..] == [min];
      while i > 0
        invariant 0 <= i < n
        invariant min == MinBirthday(db.accounts[i..])
        invariant min in db.accounts[i..] && forall b <- db.accounts[i..] :: min <= b
      {
        i := i - 1;
        assert db.accounts[i..] == [db.accounts[i]] + db.accounts[i + 1..];
        min := Min(db.accounts[i], min);
      }
      assert db.accounts[0..] == db.accounts;
    }

    /** Hands the blocks from a height on, up to a limit, to the scanner. */
    method WithBlocks(blocks: seq<nat>, from: nat, limit: nat) returns (handed: seq<nat>)
      ensures handed == Selected(blocks, from, limit)
    {
      handed := [];
      var count := 0;
      for i := 0 to |blocks|
        invariant 0 <= count <= limit
        invariant handed + Selected(blocks[i..], from, limit - count) == Selected(blocks, from, limit)
      {
        assert blocks[i..][1..] == blocks[i + 1..];
        if blocks[i] >= from && count < limit {
          handed := handed + [blocks[i]];
          count := count + 1;
        } else if count == limit {
          assert Selected(blocks[i + 1..], from, 0) == Selected(blocks[i..], from, 0) == [];
        }
      }
    }

    /** Accounts that the wallet already knows are rewound to their birthday. */
    method RegisterAccount(birthday: Height, regtest: bool, latest: Height,
                           answer: Import) returns (error: Option<string>)
      modifies this`db
      ensures (db, error) == Register(old(db), birthday, regtest, latest, answer)
    {
      if answer.Rejected? {
        return Some(answer.error);
      }
      var resolved: Height := if birthday == 0 then (if regtest then 2 else latest) else birthday;
      var prev: Height := if resolved > 0 then resolved - 1 else resolved;
      if answer.TruncateFails? {
        return Some(answer.error);
      }
      if !answer.New? {
        db := Truncate(db, prev);
      }
      if answer.NotFound? {
        return Some(answer.error);
      }
      db := db.(accounts := db.accounts + [resolved]);
      return None;
    }

    method ApplyScan(blocks: seq<nat>, from: nat, target: Height, outcome: Outcome) returns (error: Option<string>)
      requires !outcome.TreeStateFails?
      modifies this
      ensures (db, error) == ScanBlocks(old(db), blocks, from, target, outcome)
      ensures targetHeight == target && currentHeight == if error == None then target else old(currentHeight)
      ensures isSyncing == outcome.TipFails?
    {
      isSyncing := true;
      targetHeight := target;
      var handed := WithBlocks(blocks, from, |blocks|);
      if outcome.ScanFails? {
        isSyncing := false;
        return Some(outcome.error);
      }
      var moved := outcome.Scanned? || outcome.moved;
      db := db.(scans := db.scans + [Scan(handed, moved)]);
      if moved {
        db := db.(tip := Max(db.tip, target));
      }
      if outcome.TipFails? {
        return Some(outcome.error);
      }
      currentHeight := target;
      isSyncing := false;
      return None;
    }
  }

  // ----- The scan actor

  /** One chunk: fetch, tree state, scan. An empty answer of the server is passed over. */
  function Chunk(w: Wallet, from: nat, to: Height, world: World, i: nat): (Wallet, Option<string>) {
    match world.fetch(from, to)
    case Err(e) => (w, Some(e))
    case Ok(blocks) =>
      if blocks == [] then (w, None)
      else
        match world.outcome(i)
        case TreeStateFails(e) => (w, Some(e))
        case outcome => ScanBlocks(w, blocks, from, to, outcome)
  }

  function Chunks(w: Wallet, current: nat, target: Height, world: World, i: nat): (Wallet, Option<string>)
    decreases target + 1 - current
  {
    if current > target then (w, None)
    else
      var to := Min(current + CHUNK - 1, target);
      var (w', error) := Chunk(w, current, to, world, i);
      if error.Some? then (w', error) else Chunks(w', to + 1, target, world, i + 1)
  }

  /** Where a synchronisation begins, if there is anything to begin from. */
  function StartHeight(w: Wallet): Option<nat> {
    if w.tip > 0 then Some(w.tip + 1)
    else if MinBirthday(w.accounts) == 0 then None
    else Some(Max(2, MinBirthday(w.accounts)))
  }

  function SyncFromTip(w: Wallet, world: World): (Wallet, Option<string>) {
    match (world.latest, world.tipError, StartHeight(w))
    case (Err(e), _, _) => (w, Some(e))
    case (Ok(_), Some(e), _) => (w, Some(e))
    case (Ok(_), None, None) => (w, None)
    case (Ok(latest), None, Some(from)) => Chunks(w, from, latest, world, 0)
  }

  function SyncNewAccount(w: Wallet, birthday: Height, regtest: bool, world: World): (Wallet, Option<string>) {
    match world.latest
    case Err(e) => (w, Some(e))
    case Ok(latest) => Chunks(w, ResolveBirthday(birthday, regtest, latest), latest, world, 0)
  }

  class ScanActor {
    const wallet: WalletDbActor
    const regtest: bool
    var isSyncing: bool

    constructor (wallet: WalletDbActor, regtest: bool)
      ensures this.wallet == wallet && this.regtest == regtest && !isSyncing
    {
      this.wallet, this.regtest := wallet, regtest;
      isSyncing := false;
    }

    method SyncBlocksInChunks(from: nat, target: Height, world: World) returns (error: Option<string>)
      modifies wallet
      ensures (wallet.db, error) == Chunks(old(wallet.db), from, target, world, 0)
    {
      var current := from;
      var i := 0;
      while current <= target
        invariant Chunks(wallet.db, current, target, world, i) == Chunks(old(wallet.db), from, target, world, 0)
        decreases target + 1 - current
      {
        var chunkEnd: Height := Min(current + CHUNK - 1, target);
        var blocks := world.fetch(current, chunkEnd);
        if blocks.Err? {
          return Some(blocks.error);
        }
        if |blocks.value| > 0 {
          var outcome := world.outcome(i);
          if outcome.TreeStateFails? {
            return Some(outcome.error);
          }
          error := wallet.ApplyScan(blocks.value, current, chunkEnd, outcome);
          if error.Some? {
            return error;
          }
        }
        current := chunkEnd + 1;
        i := i + 1;
      }
      return None;
    }

    /** The message handler. A handler that is let in lowers the flag again whatever happens, so where
        messages are handled one at a time none is ever refused. */
    method HandleSync(world: World) returns (error: Option<string>)
      modifies this, wallet
      ensures isSyncing == old(isSyncing)
      ensures if isSyncing then wallet.db == old(wallet.db) && error == Some("scan already in progress")
              else (wallet.db, error) == SyncFromTip(old(wallet.db), world)
    {
      if isSyncing {
        return Some("scan already in progress");
      }
      isSyncing := true;
      error := RunSync(world);
      isSyncing := false;
    }

    method RunSync(world: World) returns (error: Option<string>)
      modifies wallet
      ensures (wallet.db, error) == SyncFromTip(old(wallet.db), world)
    {
      if world.latest.Err? {
        return Some(world.latest.error);
      }
      var latest := world.latest.value;
      var tip := wallet.GetChainTip(world.tipError);
      if tip.Err? {
        return Some(tip.error);
      }
      var from: nat;
      if tip.value > 0 {
        from := tip.value as int + 1;
      } else {
        var birthday := wallet.GetMinBirthday();
        if birthday == 0 {
          return None;
        }
        from := if birthday <= 1 then 2 else birthday;
      }
      if from > latest {
        return None;
      }
      error := SyncBlocksInChunks(from, latest, world);
    }

    method HandleSyncNewAccount(birthday: Height, world: World) returns (error: Option<string>)
      modifies this, wallet
      ensures isSyncing == old(isSyncing)
      ensures if isSyncing then wallet.db == old(wallet.db) && error == Some("scan already in progress")
              else (wallet.db, error) == SyncNewAccount(old(wallet.db), birthday, regtest, world)
    {
      if isSyncing {
        return Some("scan already in progress");
      }
      isSyncing := true;
      if world.latest.Err? {
        error := Some(world.latest.error);
      } else {
        var latest := world.latest.value;
        var from := if birthday == 0 then (if regtest then 2 else latest) else birthday;
        error := None;
        if from <= latest {
          error := SyncBlocksInChunks(from, latest, world);
        }
      }
      isSyncing := false;
    }
  }
}
