/** Runs of the chain synchronisation: what is scanned over any number of synchronisations,
    registrations and first scans of new accounts, with failures and resumption. */
module SyncRuns {
  import opened ChainSync
  import opened Wrappers

  /** A message to the actors, or a restart of the daemon, which keeps the wallet database and forgets the
      list of accounts. */
  datatype Message =
    | SyncMessage(world: World)
    | RegisterMessage(birthday: Height, regtest: bool, latest: Height, answer: Import)
    | NewAccountMessage(birthday: Height, regtest: bool, world: World)
    | Restart

  function Step(w: Wallet, m: Message): Wallet {
    match m
    case SyncMessage(world) => SyncFromTip(w, world).0
    case RegisterMessage(birthday, regtest, latest, answer) => Register(w, birthday, regtest, latest, answer).0
    case NewAccountMessage(birthday, regtest, world) => SyncNewAccount(w, birthday, regtest, world).0
    case Restart => w.(accounts := [])
  }

  function After(run: seq<Message>): Wallet {
    if run == [] then Wallet(0, [], []) else Step(After(run[..|run| - 1]), run[|run| - 1])
  }

  /** The server answers every request for a range with all of its blocks, with none, or with an error. */
  ghost predicate AllOrNothing(world: World) {
    forall from: nat, to: nat :: from <= to && world.fetch(from, to).Ok? ==>
                                   world.fetch(from, to).value == Range(from, to) || world.fetch(from, to).value == []
  }

  /** The server answers every request for a range with all of its blocks, or with an error. */
  ghost predicate Complete(world: World) {
    forall from: nat, to: nat :: from <= to && world.fetch(from, to).Ok? ==>
                                   world.fetch(from, to).value == Range(from, to)
  }

  ghost predicate CompleteMessage(m: Message) {
    m.SyncMessage? || m.NewAccountMessage? ==> Complete(m.world)
  }

  /** The message makes the wallet forget what it has scanned above a height. */
  predicate Rewinds(m: Message) {
    m.RegisterMessage? && (m.answer.Known? || m.answer.NotFound?)
  }

  /** The heights of the scans whose end the tip has reached, in the order of the scans. */
  function Recorded(scans: seq<Scan>): seq<nat> {
    if scans == [] then [] else (if scans[0].recorded then scans[0].blocks else []) + Recorded(scans[1..])
  }

  /** All heights scanned, as often as they were. */
  function AllBlocks(scans: seq<Scan>): seq<nat> {
    if scans == [] then [] else scans[0].blocks + AllBlocks(scans[1..])
  }

  lemma {:induction false} ScansAppend(a: seq<Scan>, b: seq<Scan>)
    ensures Recorded(a + b) == Recorded(a) + Recorded(b)
    ensures AllBlocks(a + b) == AllBlocks(a) + AllBlocks(b)
  {
    if a == [] {
      assert a + b == b;
    } else {
      assert (a + b)[1..] == a[1..] + b;
      ScansAppend(a[1..], b);
    }
  }

  // ----- The chunks of one synchronisation, as far as they are reached

  /** What comes of a chunk: passed over because the answer was empty, no effect and an error, a scan
      without and with the tip moved and an error, or a scan and no error. */
  datatype Kind = Skipped | Fails | Lost | LastRecorded | Passes

  function KindOf(world: World, from: nat, to: nat, i: nat): Kind {
    match world.fetch(from, to)
    case Err(_) => Fails
    case Ok(blocks) =>
      if blocks == [] then Skipped
      else
        match world.outcome(i)
        case TreeStateFails(_) => Fails
        case ScanFails(_) => Fails
        case TipFails(_, moved) => if moved then LastRecorded else Lost
        case Scanned => Passes
  }

  /** Chunk j of those from a height on, of which the first has number i. */
  function KindAt(world: World, current: nat, target: Height, i: nat, j: nat): Kind
    requires current + CHUNK * j <= target
  {
    KindOf(world, current + CHUNK * j, Min(current + CHUNK * j + CHUNK - 1, target), i + j)
  }

  /** Chunk k exists and ends without an error. */
  predicate GoesOn(world: World, current: nat, target: Height, i: nat, k: nat) {
    current + CHUNK * k <= target &&
    (KindAt(world, current, target, i, k).Passes? || KindAt(world, current, target, i, k).Skipped?)
  }

  /** Chunk j exists, and all before it end without an error. */
  predicate Reached(world: World, current: nat, target: Height, i: nat, j: nat) {
    current + CHUNK * j <= target && forall k: nat :: k < j ==> GoesOn(world, current, target, i, k)
  }

  lemma KindShift(world: World, current: nat, target: Height, i: nat, j: nat)
    requires current + CHUNK * (j + 1) <= target
    ensures KindAt(world, current, target, i, j + 1) == KindAt(world, current + CHUNK, target, i + 1, j)
    ensures GoesOn(world, current, target, i, j + 1) <==> GoesOn(world, current + CHUNK, target, i + 1, j)
  {}

  lemma ReachedShift(world: World, current: nat, target: Height, i: nat, j: nat)
    requires current + CHUNK * (j + 1) <= target && GoesOn(world, current, target, i, 0)
    ensures Reached(world, current, target, i, j + 1) <==> Reached(world, current + CHUNK, target, i + 1, j)
  {
    hide GoesOn;
    var c, i' := current + CHUNK, i + 1;
    forall k: nat | 1 <= k <= j ensures GoesOn(world, current, target, i, k) <==> GoesOn(world, c, target, i', k - 1) {
      KindShift(world, current, target, i, k - 1);
    }
    if Reached(world, c, target, i', j) {
      forall k: nat | k < j + 1 ensures GoesOn(world, current, target, i, k) {
        if k > 0 {
          assert GoesOn(world, c, target, i', k - 1);
        }
      }
    }
    if Reached(world, current, target, i, j + 1) {
      forall k: nat | k < j ensures GoesOn(world, c, target, i', k) {
        assert GoesOn(world, current, target, i, k + 1);
      }
    }
  }

  /** The scans of the chunks from a height on. */
  function Added(current: nat, target: Height, world: World, i: nat): seq<Scan>
    decreases target + 1 - current
  {
    if current > target then []
    else
      var to := Min(current + CHUNK - 1, target);
      match KindOf(world, current, to, i)
      case Fails => []
      case Skipped => Added(to + 1, target, world, i + 1)
      case Lost => [Scan(Range(current, to), false)]
      case LastRecorded => [Scan(Range(current, to), true)]
      case Passes => [Scan(Range(current, to), true)] + Added(to + 1, target, world, i + 1)
  }

  /** The tip after some scans: it moves to the end of each that is recorded, but never back. */
  function TipOf(tip: int, scans: seq<Scan>): int
    decreases |scans|
  {
    if scans == [] then tip
    else
      var s := scans[0];
      TipOf(if s.recorded && s.blocks != [] then Max(tip, s.blocks[|s.blocks| - 1]) else tip, scans[1..])
  }

  lemma TipOfScan(tip: int, s: Scan, rest: seq<Scan>)
    requires s.blocks != []
    ensures TipOf(tip, [s] + rest) == TipOf(if s.recorded then Max(tip, s.blocks[|s.blocks| - 1]) else tip, rest)
    ensures TipOf(tip, [s]) == if s.recorded then Max(tip, s.blocks[|s.blocks| - 1]) else tip
    ensures TipOf(tip, []) == tip
  {
    assert ([s] + rest)[1..] == rest;
  }

  lemma {:induction false} TipInRange(tip: int, current: nat, target: Height, world: World, i: nat)
    ensures tip <= TipOf(tip, Added(current, target, world, i)) <= Max(tip, target)
    decreases target + 1 - current
  {
    hide KindOf, TipOf;
    if current <= target {
      var to := Min(current + CHUNK - 1, target);
      var rest := Added(to + 1, target, world, i + 1);
      TipOfScan(tip, Scan(Range(current, to), true), rest);
      TipOfScan(tip, Scan(Range(current, to), false), rest);
      TipInRange(tip, to + 1, target, world, i + 1);
      TipInRange(Max(tip, to), to + 1, target, world, i + 1);
    } else {
      TipOfScan(tip, Scan([0], true), []);
    }
  }

  /** A synchronisation adds those scans to the wallet, whatever the wallet was. */
  lemma {:induction false} ChunksAdd(w: Wallet, current: nat, target: Height, world: World, i: nat)
    requires AllOrNothing(world)
    ensures
      var added := Added(current, target, world, i);
      && 0 <= TipOf(w.tip, added) <= MAX_HEIGHT
      && Chunks(w, current, target, world, i).0 == w.(scans := w.scans + added, tip := TipOf(w.tip, added))
    decreases target + 1 - current
  {
    hide Chunk, KindOf, AllOrNothing, TipOf;
    TipInRange(w.tip, current, target, world, i);
    assert w.scans + [] == w.scans;
    TipOfScan(w.tip, Scan([0], true), []);
    if current <= target {
      var to := Min(current + CHUNK - 1, target);
      ChunkAdds(w, current, to, world, i);
      var kind := KindOf(world, current, to, i);
      var w' := Chunk(w, current, to, world, i).0;
      var rest := Added(to + 1, target, world, i + 1);
      if kind.Skipped? {
        ChunksAdd(w, to + 1, target, world, i + 1);
      } else if kind.Passes? {
        var s := Scan(Range(current, to), true);
        ChunksAdd(w', to + 1, target, world, i + 1);
        TipOfScan(w.tip, s, rest);
        assert w.scans + [s] + rest == w.scans + ([s] + rest);
      } else if !kind.Fails? {
        TipOfScan(w.tip, Scan(Range(current, to), kind.LastRecorded?), []);
      }
    }
  }

  /** One chunk does what its kind says. */
  lemma ChunkAdds(w: Wallet, from: nat, to: Height, world: World, i: nat)
    requires AllOrNothing(world) && from <= to
    ensures
      var (w', error) := Chunk(w, from, to, world, i);
      match KindOf(world, from, to, i)
      case Fails => w' == w && error.Some?
      case Skipped => w' == w && error.None?
      case Lost => w' == w.(scans := w.scans + [Scan(Range(from, to), false)]) && error.Some?
      case LastRecorded => w' == w.(scans := w.scans + [Scan(Range(from, to), true)], tip := Max(w.tip, to)) &&
                           error.Some?
      case Passes => w' == w.(scans := w.scans + [Scan(Range(from, to), true)], tip := Max(w.tip, to)) && error.None?
  {
    var blocks := Range(from, to);
    SelectedAll(blocks, from, |blocks|);
  }

  /** A scan of 1 to 20 consecutive heights. */
  predicate IsChunk(s: Scan) {
    1 <= |s.blocks| <= CHUNK && s.blocks == Range(s.blocks[0], s.blocks[0] + |s.blocks| - 1)
  }

  /** Scans of 1 to 20 consecutive heights within a range; the tip has reached the end of each but
      possibly the last. */
  predicate AreChunks(scans: seq<Scan>, from: nat, last: int) {
    forall k :: 0 <= k < |scans| ==>
                  && IsChunk(scans[k]) && from <= scans[k].blocks[0] && scans[k].blocks[|scans[k].blocks| - 1] <= last
                  && (!scans[k].recorded ==> k == |scans| - 1)
  }

  lemma AreChunksCons(s: Scan, rest: seq<Scan>, from: nat, last: int)
    requires AreChunks(rest, from + |s.blocks|, last)
    requires IsChunk(s) && s.blocks[0] == from && from + |s.blocks| - 1 <= last && s.recorded
    ensures AreChunks([s] + rest, from, last)
  {
    var all := [s] + rest;
    forall k | 0 <= k < |all|
      ensures IsChunk(all[k]) && from <= all[k].blocks[0] && all[k].blocks[|all[k].blocks| - 1] <= last
      ensures !all[k].recorded ==> k == |all| - 1
    {
      if k > 0 {
        assert all[k] == rest[k - 1];
      }
    }
  }

  lemma {:induction false} AddedAreChunks(current: nat, target: Height, world: World, i: nat)
    ensures AreChunks(Added(current, target, world, i), current, target)
    decreases target + 1 - current
  {
    hide KindOf, AreChunks;
    if current <= target {
      var to := Min(current + CHUNK - 1, target);
      AddedAreChunks(to + 1, target, world, i + 1);
      NoChunks(current, target);
      match KindOf(world, current, to, i)
      case Skipped => AreChunksFrom(Added(to + 1, target, world, i + 1), to + 1, current, target);
      case Passes => AreChunksCons(Scan(Range(current, to), true), Added(to + 1, target, world, i + 1),
                                   current, target);
      case Fails =>
      case Lost => OneChunk(Scan(Range(current, to), false), current, target);
      case LastRecorded => OneChunk(Scan(Range(current, to), true), current, target);
    } else {
      NoChunks(current, target);
    }
  }

  lemma NoChunks(from: nat, last: int)
    ensures AreChunks([], from, last)
  {}

  lemma OneChunk(s: Scan, from: nat, last: int)
    requires IsChunk(s) && s.blocks[0] == from && from + |s.blocks| - 1 <= last
    ensures AreChunks([s], from, last)
  {}

  lemma AreChunksFrom(scans: seq<Scan>, from: nat, lower: nat, last: int)
    requires AreChunks(scans, from, last) && lower <= from
    ensures AreChunks(scans, lower, last)
  {}

  // ----- With complete answers the scans are an interval

  /** The end of the last chunk that is scanned, and of the last that is recorded; one below the start
      for none. */
  function ScannedTo(current: nat, target: Height, world: World, i: nat): (e: int)
    ensures current - 1 <= e
    decreases target + 1 - current
  {
    if current > target then current - 1
    else
      var to := Min(current + CHUNK - 1, target);
      match KindOf(world, current, to, i)
      case Passes => ScannedTo(to + 1, target, world, i + 1)
      case Lost => to
      case LastRecorded => to
      case _ => current - 1
  }

  function RecordedTo(current: nat, target: Height, world: World, i: nat): (e: int)
    ensures current - 1 <= e
    decreases target + 1 - current
  {
    if current > target then current - 1
    else
      var to := Min(current + CHUNK - 1, target);
      match KindOf(world, current, to, i)
      case Passes => RecordedTo(to + 1, target, world, i + 1)
      case LastRecorded => to
      case _ => current - 1
  }

  lemma RangeJoin(from: nat, mid: int, to: int)
    requires from <= mid + 1 && mid <= to
    ensures Range(from, mid) + Range(mid + 1, to) == Range(from, to)
  {}

  /** With complete answers what is scanned and what is recorded are intervals from the first height on. */
  lemma {:induction false} AddedIntervals(tip: int, current: nat, target: Height, world: World, i: nat)
    requires Complete(world)
    ensures
      var added := Added(current, target, world, i);
      var s, r := ScannedTo(current, target, world, i), RecordedTo(current, target, world, i);
      && r <= s <= Max(target, current - 1)
      && AllBlocks(added) == Range(current, s)
      && Recorded(added) == Range(current, r)
      && TipOf(tip, added) == if r < current then tip else Max(tip, r)
    decreases target + 1 - current
  {
    hide KindOf, TipOf, Recorded, AllBlocks;
    NoScan(tip);
    if current <= target {
      var to := Min(current + CHUNK - 1, target);
      NoSkip(world, current, to, i);
      var kind := KindOf(world, current, to, i);
      var head := Scan(Range(current, to), !kind.Lost?);
      OneScan(tip, head);
      if kind.Passes? {
        AddedIntervals(Max(tip, to), to + 1, target, world, i + 1);
        IntervalGrows(tip, current, to, Added(to + 1, target, world, i + 1), ScannedTo(to + 1, target, world, i + 1),
                      RecordedTo(to + 1, target, world, i + 1));
      }
    }
  }

  /** A recorded scan before scans that are intervals from where it ends. */
  lemma IntervalGrows(tip: int, current: nat, to: nat, rest: seq<Scan>, s: int, r: int)
    requires current <= to <= r <= s
    requires AllBlocks(rest) == Range(to + 1, s) && Recorded(rest) == Range(to + 1, r)
    requires TipOf(Max(tip, to), rest) == if r < to + 1 then Max(tip, to) else Max(Max(tip, to), r)
    ensures
      var all := [Scan(Range(current, to), true)] + rest;
      && AllBlocks(all) == Range(current, s) && Recorded(all) == Range(current, r) && TipOf(tip, all) == Max(tip, r)
  {
    hide TipOf, Recorded, AllBlocks;
    var head := Scan(Range(current, to), true);
    OneScan(tip, head);
    ScansAppend([head], rest);
    TipOfScan(tip, head, rest);
    RangeJoin(current, to, s);
    RangeJoin(current, to, r);
  }

  lemma NoScan(tip: int)
    ensures AllBlocks([]) == [] && Recorded([]) == [] && TipOf(tip, []) == tip
  {}

  lemma OneScan(tip: int, s: Scan)
    requires s.blocks != []
    ensures AllBlocks([s]) == s.blocks
    ensures Recorded([s]) == if s.recorded then s.blocks else []
    ensures TipOf(tip, [s]) == if s.recorded then Max(tip, s.blocks[|s.blocks| - 1]) else tip
  {
    TipOfScan(tip, s, []);
    assert s.blocks + [] == s.blocks;
  }

  lemma NoSkip(world: World, from: nat, to: nat, i: nat)
    requires Complete(world) && from <= to
    ensures !KindOf(world, from, to, i).Skipped?
  {
    assert |Range(from, to)| > 0;
  }

  lemma CompleteIsAllOrNothing(world: World)
    requires Complete(world)
    ensures AllOrNothing(world)
  {}

  /** What the wallet is after a synchronisation of a range with complete answers. */
  lemma CompleteChunks(w: Wallet, current: nat, target: Height, world: World)
    requires Complete(world)
    ensures
      var w' := Chunks(w, current, target, world, 0).0;
      var s, r := ScannedTo(current, target, world, 0), RecordedTo(current, target, world, 0);
      && w'.accounts == w.accounts
      && w'.scans == w.scans + Added(current, target, world, 0)
      && AllBlocks(w'.scans) == AllBlocks(w.scans) + Range(current, s)
      && Recorded(w'.scans) == Recorded(w.scans) + Range(current, r)
      && r <= s <= Max(target, current - 1)
      && w'.tip == if r < current then w.tip else Max(w.tip, r)
  {
    hide Added, Chunks, ScannedTo, RecordedTo, Recorded, AllBlocks, TipOf;
    CompleteIsAllOrNothing(world);
    ChunksAdd(w, current, target, world, 0);
    AddedIntervals(w.tip, current, target, world, 0);
    ScansAppend(w.scans, Added(current, target, world, 0));
  }

  // ----- Runs without first scans of new accounts: one interval, each height once

  /** The recorded scans are the heights from a start to the tip, in order, each once. */
  predicate Covers(w: Wallet, start: nat) {
    if w.tip == 0 then Recorded(w.scans) == [] else 1 <= start <= w.tip + 1 && Recorded(w.scans) == Range(start, w.tip)
  }

  lemma {:induction false} UpToAppend(a: seq<nat>, b: seq<nat>, h: nat)
    ensures UpTo(a + b, h) == UpTo(a, h) + UpTo(b, h)
  {
    if a == [] {
      assert a + b == b;
    } else {
      assert (a + b)[1..] == a[1..] + b;
      UpToAppend(a[1..], b, h);
    }
  }

  lemma {:induction false} UpToRange(from: nat, last: nat, h: nat)
    ensures UpTo(Range(from, last), h) == Range(from, Min(last, h))
    decreases last + 1 - from
  {
    if from <= last {
      assert Range(from, last)[1..] == Range(from + 1, last);
      UpToRange(from + 1, last, h);
      if from <= h {
        assert Range(from, Min(last, h)) == [from] + Range(from + 1, Min(last, h));
      }
    }
  }

  lemma {:induction false} UpToMember(blocks: seq<nat>, h: nat, b: nat)
    ensures b in UpTo(blocks, h) <==> b in blocks && b <= h
  {
    if blocks != [] {
      UpToMember(blocks[1..], h, b);
    }
  }

  lemma {:induction false} RecordedTruncate(scans: seq<Scan>, h: nat)
    ensures Recorded(TruncateScans(scans, h)) == UpTo(Recorded(scans), h)
  {
    if scans != [] {
      RecordedTruncate(scans[1..], h);
      UpToAppend(if scans[0].recorded then scans[0].blocks else [], Recorded(scans[1..]), h);
      assert TruncateScans(scans, h)[1..] == TruncateScans(scans[1..], h);
    }
  }

  /** Where the interval starts after a message. */
  function NextStart(w: Wallet, start: nat, m: Message): nat {
    match m
    case SyncMessage(_) => if w.tip == 0 && StartHeight(w).Some? then StartHeight(w).value else start
    case RegisterMessage(birthday, regtest, latest, answer) =>
      var prev := Max(ResolveBirthday(birthday, regtest, latest) - 1, 0);
      if Rewinds(m) && prev < start then prev + 1 else start
    case NewAccountMessage(birthday, regtest, world) =>
      if w.tip == 0 && world.latest.Ok? then FirstStart(w, ResolveBirthday(birthday, regtest, world.latest.value))
      else start
    case Restart => start
  }

  /** Where the interval is to start when a new account is scanned before anything else: at its birthday,
      or where a synchronisation for the accounts listed would begin. */
  function FirstStart(w: Wallet, birthday: Height): nat {
    if StartHeight(w).Some? then Min(birthday, StartHeight(w).value) else birthday
  }

  /** Where the interval starts after a run. */
  function RunStart(run: seq<Message>): nat {
    if run == [] then 0
    else
      var n := |run| - 1;
      NextStart(After(run[..n]), RunStart(run[..n]), run[n])
  }

  lemma SyncCovers(w: Wallet, start: nat, world: World)
    requires Covers(w, start) && Complete(world)
    ensures Covers(SyncFromTip(w, world).0, NextStart(w, start, SyncMessage(world)))
  {
    hide Recorded, Chunks, ScannedTo, RecordedTo, AllBlocks, Added, Complete;
    if world.latest.Ok? && world.tipError.None? && StartHeight(w).Some? {
      var from := StartHeight(w).value;
      CompleteChunks(w, from, world.latest.value, world);
      if w.tip > 0 {
        RangeJoin(start, w.tip, RecordedTo(from, world.latest.value, world, 0));
      }
    }
  }

  lemma RewindCovers(w: Wallet, start: nat, p: Height)
    requires Covers(w, start)
    ensures Covers(Truncate(w, p), if p < start then p + 1 else start)
  {
    hide Recorded, TruncateScans, UpTo;
    RecordedTruncate(w.scans, p);
    NothingUpTo(p);
    UpToRange(start, w.tip, p);
  }

  /** Every message but the first scan of a new account keeps the recorded scans one interval. */
  lemma StepCovers(w: Wallet, start: nat, m: Message)
    requires Covers(w, start) && CompleteMessage(m) && !m.NewAccountMessage?
    ensures Covers(Step(w, m), NextStart(w, start, m))
  {
    hide Recorded, SyncFromTip, Truncate, Complete;
    match m
    case SyncMessage(world) => SyncCovers(w, start, world);
    case RegisterMessage(birthday, regtest, latest, answer) =>
      RewindCovers(w, start, Max(ResolveBirthday(birthday, regtest, latest) - 1, 0));
    case Restart =>
  }

  lemma NothingUpTo(h: nat)
    ensures UpTo([], h) == []
  {}

  /** Over every run of synchronisations, registrations and restarts, with failures anywhere, the recorded
      scans are one interval that ends at the tip: no height is left out and none is repeated. */
  lemma {:induction false} RecordedIsInterval(run: seq<Message>)
    requires forall m <- run :: CompleteMessage(m) && !m.NewAccountMessage?
    ensures Covers(After(run), RunStart(run))
  {
    hide Covers, Step, NextStart;
    if run == [] {
      NothingCovered();
    } else {
      var prefix, m := run[..|run| - 1], run[|run| - 1];
      assert m in run;
      RecordedIsInterval(prefix);
      StepCovers(After(prefix), RunStart(prefix), m);
    }
  }

  lemma NothingCovered()
    ensures Covers(After([]), 0)
  {}

  // ----- Where the interval starts

  /** The first height that the message asks for. */
  function FirstHeight(w: Wallet, m: Message): Option<nat> {
    match m
    case SyncMessage(_) => StartHeight(w)
    case RegisterMessage(_, _, _, _) => None
    case NewAccountMessage(birthday, regtest, world) =>
      if world.latest.Ok? then Some(ResolveBirthday(birthday, regtest, world.latest.value)) else None
    case Restart => None
  }

  /** Where the interval is to start when the message is the first to set the tip. */
  function StartSetBy(w: Wallet, m: Message): Option<nat> {
    match m
    case NewAccountMessage(birthday, regtest, world) =>
      if world.latest.Ok? then Some(FirstStart(w, ResolveBirthday(birthday, regtest, world.latest.value))) else None
    case _ => FirstHeight(w, m)
  }

  /** Message k is the one with which the chain tip is first set. */
  predicate TipSetFrom(run: seq<Message>, k: nat, from: nat)
    requires k < |run|
  {
    After(run[..k]).tip == 0 && After(run[..k + 1]).tip > 0 && StartSetBy(After(run[..k]), run[k]) == Some(from)
  }

  /** A message without a rewind adds chunks from its first height on, and never lowers the tip. */
  lemma StepAdds(w: Wallet, m: Message)
    requires CompleteMessage(m) && !Rewinds(m)
    ensures w.scans <= Step(w, m).scans && w.tip <= Step(w, m).tip
    ensures match FirstHeight(w, m)
            case None => Step(w, m).scans == w.scans && Step(w, m).tip == w.tip
            case Some(from) => AreChunks(Step(w, m).scans[|w.scans|..], from, MAX_HEIGHT)
  {
    hide Chunks, AreChunks, Added, ScannedTo, RecordedTo, Recorded, AllBlocks, Complete;
    var n := |w.scans|;
    if FirstHeight(w, m).Some? {
      var from := FirstHeight(w, m).value;
      if m.world.latest.Ok? && (m.SyncMessage? ==> m.world.tipError.None?) {
        var latest := m.world.latest.value;
        CompleteChunks(w, from, latest, m.world);
        AddedAreChunks(from, latest, m.world, 0);
        AreChunksTo(Added(from, latest, m.world, 0), from, latest);
        assert Step(w, m).scans[n..] == Added(from, latest, m.world, 0);
      } else {
        NoChunks(from, MAX_HEIGHT);
        assert Step(w, m).scans[n..] == [];
      }
    }
  }

  lemma AreChunksTo(scans: seq<Scan>, from: nat, last: Height)
    requires AreChunks(scans, from, last)
    ensures AreChunks(scans, from, MAX_HEIGHT)
  {}

  lemma ChunksAppend(a: seq<Scan>, all: seq<Scan>, from: nat)
    requires a <= all && AreChunks(all[|a|..], from, MAX_HEIGHT) && forall s <- a :: IsChunk(s)
    ensures forall s <- all :: IsChunk(s)
  {
    forall s | s in all ensures IsChunk(s) {
      assert all == a + all[|a|..];
    }
  }

  /** Where no account is rewound, the interval starts where it was to when the tip was first set: at the
      smallest birthday of the accounts there were then, or at height 2, or at the birthday of the new
      account that was scanned, if that is smaller. Every scan is of 1 to 20 heights. */
  lemma {:induction false} IntervalStartsAtBirthday(run: seq<Message>)
    requires forall m <- run :: CompleteMessage(m) && !Rewinds(m)
    ensures After(run).tip > 0 ==> exists k: nat :: k < |run| && TipSetFrom(run, k, RunStart(run))
    ensures forall s <- After(run).scans :: IsChunk(s)
  {
    hide IsChunk, StartHeight, Step, CompleteMessage, AreChunks, FirstHeight, StartSetBy, Rewinds;
    if run != [] {
      var n := |run| - 1;
      var prefix, m := run[..n], run[n];
      assert m in run;
      IntervalStartsAtBirthday(prefix);
      var w := After(prefix);
      StepAdds(w, m);
      if FirstHeight(w, m).Some? {
        ChunksAppend(w.scans, After(run).scans, FirstHeight(w, m).value);
      }
      SameStart(w, RunStart(prefix), m);
      assert run[..n + 1] == run;
      if w.tip > 0 {
        var k: nat :| k < n && TipSetFrom(prefix, k, RunStart(prefix));
        assert prefix[..k] == run[..k] && prefix[..k + 1] == run[..k + 1];
        assert TipSetFrom(run, k, RunStart(run));
      } else if After(run).tip > 0 {
        assert TipSetFrom(run, n, RunStart(run));
      }
    }
  }

  lemma SameStart(w: Wallet, start: nat, m: Message)
    requires !Rewinds(m)
    ensures w.tip > 0 ==> NextStart(w, start, m) == start
    ensures w.tip == 0 && FirstHeight(w, m).Some? ==> StartSetBy(w, m) == Some(NextStart(w, start, m))
  {}

  // ----- Which chunks are reached with what

  predicate Is(world: World, current: nat, target: Height, i: nat, j: nat, kind: Kind) {
    Reached(world, current, target, i, j) && KindAt(world, current, target, i, j) == kind
  }

  lemma IsFirst(world: World, current: nat, target: Height, i: nat, kind: Kind)
    requires current <= target
    ensures Is(world, current, target, i, 0, kind) <==>
            KindOf(world, current, Min(current + CHUNK - 1, target), i) == kind
  {}

  lemma IsNext(world: World, current: nat, target: Height, i: nat, j: nat, kind: Kind)
    requires current <= target
    ensures Is(world, current, target, i, j + 1, kind) <==>
            var first := KindOf(world, current, Min(current + CHUNK - 1, target), i);
            (first.Passes? || first.Skipped?) && Is(world, current + CHUNK, target, i + 1, j, kind)
  {
    if current + CHUNK * (j + 1) <= target {
      KindShift(world, current, target, i, j);
      if GoesOn(world, current, target, i, 0) {
        ReachedShift(world, current, target, i, j);
      }
    }
  }

  lemma AddedNext(current: nat, target: Height, world: World, i: nat)
    requires current <= target
    ensures Added(Min(current + CHUNK - 1, target) + 1, target, world, i) == Added(current + CHUNK, target, world, i)
  {}

  // ----- How often a height is scanned

  /** Some scan was committed without its tip, and what is left of it starts at a height. */
  predicate HasLost(scans: seq<Scan>, h: nat) {
    exists s <- scans :: !s.recorded && s.blocks != [] && s.blocks[0] == h
  }

  lemma HasLostAppend(a: seq<Scan>, b: seq<Scan>, h: nat)
    ensures HasLost(a + b, h) <==> HasLost(a, h) || HasLost(b, h)
  {
    if s :| s in a + b && !s.recorded && s.blocks != [] && s.blocks[0] == h {
      assert s in a || s in b;
    }
  }

  lemma HasLostOne(s: Scan, h: nat)
    ensures HasLost([s], h) <==> !s.recorded && s.blocks != [] && s.blocks[0] == h
    ensures !HasLost([], h)
  {
    assert s in [s];
  }

  /** Nothing is scanned without being recorded exactly when no scan is lost. */
  lemma {:induction false} AllRecordedIff(scans: seq<Scan>)
    ensures AllBlocks(scans) == Recorded(scans) <==> forall h: nat :: !HasLost(scans, h)
    ensures |Recorded(scans)| <= |AllBlocks(scans)|
  {
    if scans != [] {
      var s, rest := scans[0], scans[1..];
      AllRecordedIff(rest);
      assert scans == [s] + rest;
      forall h: nat ensures HasLost(scans, h) <==> HasLost([s], h) || HasLost(rest, h) {
        HasLostAppend([s], rest, h);
      }
      if s.recorded {
        forall h: nat ensures !HasLost([s], h) {
          HasLostOne(s, h);
        }
        assert AllBlocks(scans)[|s.blocks|..] == AllBlocks(rest);
        assert Recorded(scans)[|s.blocks|..] == Recorded(rest);
      } else if s.blocks != [] {
        HasLostOne(s, s.blocks[0]);
        assert HasLost(scans, s.blocks[0]);
      } else {
        forall h: nat ensures !HasLost([s], h) {
          HasLostOne(s, h);
        }
      }
    }
  }

  lemma {:induction false} AddedLost(current: nat, target: Height, world: World, i: nat, h: nat)
    ensures HasLost(Added(current, target, world, i), h) <==>
            exists j: nat :: Is(world, current, target, i, j, Lost) && h == current + CHUNK * j
    decreases target + 1 - current
  {
    hide KindOf, Is, HasLost, Reached, KindAt, GoesOn;
    HasLostOne(Scan([], true), h);
    if current <= target {
      var to, c, i' := Min(current + CHUNK - 1, target), current + CHUNK, i + 1;
      var kind := KindOf(world, current, to, i);
      var rest := Added(c, target, world, i');
      var head := Scan(Range(current, to), !kind.Lost?);
      AddedNext(current, target, world, i');
      IsFirst(world, current, target, i, Lost);
      forall j: nat | Is(world, c, target, i', j, Lost) && (kind.Passes? || kind.Skipped?)
        ensures Is(world, current, target, i, j + 1, Lost)
      {
        IsNext(world, current, target, i, j, Lost);
      }
      forall j: nat | Is(world, current, target, i, j, Lost) && j > 0
        ensures (kind.Passes? || kind.Skipped?) && Is(world, c, target, i', j - 1, Lost)
      {
        IsNext(world, current, target, i, j - 1, Lost);
      }
      AddedLost(c, target, world, i', h);
      HasLostOne(head, h);
      HasLostAppend([head], rest, h);
      if kind.Passes? || kind.Skipped? {
        if j: nat :| Is(world, c, target, i', j, Lost) && h == c + CHUNK * j {
          assert Is(world, current, target, i, j + 1, Lost);
        }
      }
    } else {
      forall j: nat ensures !Is(world, current, target, i, j, Lost) {
        NotBeyond(world, current, target, i, j, Lost);
      }
    }
  }

  lemma NotBeyond(world: World, current: nat, target: Height, i: nat, j: nat, kind: Kind)
    requires current > target
    ensures !Is(world, current, target, i, j, kind)
  {}

  predicate AreRanges(scans: seq<Scan>) {
    forall s <- scans :: s.blocks == [] || s.blocks == Range(s.blocks[0], s.blocks[|s.blocks| - 1])
  }

  lemma {:induction false} TruncatedLost(scans: seq<Scan>, p: nat, h: nat)
    requires AreRanges(scans)
    ensures AreRanges(TruncateScans(scans, p))
    ensures HasLost(TruncateScans(scans, p), h) <==> HasLost(scans, h) && h <= p
  {
    hide HasLost;
    HasLostOne(Scan([], true), h);
    if scans != [] {
      var s := scans[0];
      var s' := s.(blocks := UpTo(s.blocks, p));
      assert s in scans;
      TruncatedLost(scans[1..], p, h);
      if s.blocks != [] {
        UpToRange(s.blocks[0], s.blocks[|s.blocks| - 1], p);
      }
      HasLostOne(s, h);
      HasLostOne(s', h);
      assert [s] + scans[1..] == scans;
      HasLostAppend([s], scans[1..], h);
      HasLostAppend([s'], TruncateScans(scans[1..], p), h);
    }
  }

  /** The synchronisation reaches a chunk at that height whose scan is committed but not recorded. */
  ghost predicate Loses(w: Wallet, m: Message, h: nat) {
    && m.SyncMessage? && m.world.latest.Ok? && m.world.tipError.None? && StartHeight(w).Some?
    && var from := StartHeight(w).value;
    exists j: nat :: Is(m.world, from, m.world.latest.value, 0, j, Lost) && h == from + CHUNK * j
  }

  /** The message does not rewind the wallet below a height. */
  predicate Spares(m: Message, h: nat) {
    Rewinds(m) ==> h < Max(ResolveBirthday(m.birthday, m.regtest, m.latest), 1)
  }

  ghost predicate LostAndKept(run: seq<Message>, k: nat, h: nat) {
    k < |run| && Loses(After(run[..k]), run[k], h) && forall l :: k < l < |run| ==> Spares(run[l], h)
  }

  lemma StepLost(w: Wallet, m: Message, h: nat)
    requires CompleteMessage(m) && !m.NewAccountMessage? && AreRanges(w.scans)
    ensures AreRanges(Step(w, m).scans)
    ensures HasLost(Step(w, m).scans, h) <==> (HasLost(w.scans, h) && Spares(m, h)) || Loses(w, m, h)
  {
    hide HasLost, Chunks, Added, Is, TruncateScans, Recorded, AllBlocks, ScannedTo, RecordedTo;
    match m
    case SyncMessage(world) =>
      if world.latest.Ok? && world.tipError.None? && StartHeight(w).Some? {
        var from := StartHeight(w).value;
        var added := Added(from, world.latest.value, world, 0);
        CompleteChunks(w, from, world.latest.value, world);
        AddedLost(from, world.latest.value, world, 0, h);
        HasLostAppend(w.scans, added, h);
        AddedAreChunks(from, world.latest.value, world, 0);
      }
    case RegisterMessage(birthday, regtest, latest, answer) =>
      TruncatedLost(w.scans, Max(ResolveBirthday(birthday, regtest, latest) - 1, 0), h);
    case Restart =>
  }

  /** A lost scan is there exactly when a synchronisation lost it and nothing rewound it since. */
  lemma {:induction false} RunLost(run: seq<Message>, h: nat)
    requires forall m <- run :: CompleteMessage(m) && !m.NewAccountMessage?
    ensures AreRanges(After(run).scans)
    ensures HasLost(After(run).scans, h) <==> exists k: nat :: LostAndKept(run, k, h)
  {
    hide CompleteMessage, HasLost, Step, Loses, Spares, AreRanges;
    if run == [] {
      HasLostOne(Scan([], true), h);
      assert AreRanges([]) by { NoRanges(); }
    } else {
      var n := |run| - 1;
      var prefix, m := run[..n], run[n];
      assert m in run;
      RunLost(prefix, h);
      StepLost(After(prefix), m, h);
      forall k: nat | k < n ensures LostAndKept(run, k, h) <==> LostAndKept(prefix, k, h) && Spares(m, h) {
        assert prefix[..k] == run[..k];
      }
      assert LostAndKept(run, n, h) <==> Loses(After(prefix), m, h);
    }
  }

  lemma NoRanges()
    ensures AreRanges([])
  {}

  /** Over every run of synchronisations, registrations and restarts, everything scanned and not rewound is
      the interval up to the tip, each height once, exactly when no chunk was scanned without its tip
      being recorded, except where a later registration rewound that scan. */
  lemma ScannedOnceIff(run: seq<Message>)
    requires forall m <- run :: CompleteMessage(m) && !m.NewAccountMessage?
    ensures
      var w := After(run);
      AllBlocks(w.scans) == (if w.tip == 0 then [] else Range(RunStart(run), w.tip)) <==>
      !exists k: nat, h: nat :: LostAndKept(run, k, h)
  {
    hide CompleteMessage, HasLost, Loses, Spares, LostAndKept, After, RunStart, Recorded, AllBlocks, AreRanges;
    RecordedIsInterval(run);
    AllRecordedIff(After(run).scans);
    forall h: nat ensures HasLost(After(run).scans, h) <==> exists k: nat :: LostAndKept(run, k, h) {
      RunLost(run, h);
    }
    var w := After(run);
    assert Recorded(w.scans) == if w.tip == 0 then [] else Range(RunStart(run), w.tip);
    if k: nat, h: nat :| LostAndKept(run, k, h) {
      assert HasLost(w.scans, h);
    } else {
      assert forall h: nat :: !HasLost(w.scans, h);
    }
  }

  /** A scan that is committed but not recorded is made again by the next synchronisation. */
  lemma ScannedTwice(w1: World, w2: World, e: string)
    requires w1.latest == Ok(21) && w2.latest == Ok(21) && w1.tipError.None? && w2.tipError.None?
    requires w1.fetch(2, 21) == Ok(Range(2, 21)) && w2.fetch(2, 21) == Ok(Range(2, 21))
    requires w1.outcome(0) == TipFails(e, false) && w2.outcome(0) == Scanned
    ensures
      After([RegisterMessage(0, true, 100, New), SyncMessage(w1), SyncMessage(w2)]) ==
      Wallet(21, [Scan(Range(2, 21), false), Scan(Range(2, 21), true)], [2])
  {
    hide Selected;
    var blocks := Range(2, 21);
    SelectedAll(blocks, 2, |blocks|);
    var r, s1, s2 := RegisterMessage(0, true, 100, New), SyncMessage(w1), SyncMessage(w2);
    assert Register(Wallet(0, [], []), 0, true, 100, New).0 == Wallet(0, [], [2]);
    assert [r, s1, s2][..2] == [r, s1] && [r, s1][..1] == [r] && [r][..0] == [];
    assert After([r]) == Wallet(0, [], [2]);
    var once, lost := Wallet(0, [Scan(blocks, false)], [2]), [Scan(blocks, false)];
    assert After([r]).scans + lost == once.scans;
    assert Chunk(After([r]), 2, 21, w1, 0) == (once, Some(e));
    assert Chunks(After([r]), 2, 21, w1, 0).0 == once;
    assert StartHeight(After([r])) == Some(2);
    assert SyncFromTip(After([r]), w1).0 == once;
    assert After([r, s1]) == once;
    var twice := Wallet(21, [Scan(blocks, false), Scan(blocks, true)], [2]);
    assert once.scans + [Scan(blocks, true)] == twice.scans;
    assert Chunk(once, 2, 21, w2, 0) == (twice, None);
    assert Chunks(twice, 22, 21, w2, 1) == (twice, None);
    assert Chunks(once, 2, 21, w2, 0).0 == twice;
  }

  // ----- Synchronisations that reach the latest height

  ghost predicate Healthy(world: World, latest: Height) {
    && world.latest == Ok(latest) && world.tipError == None
    && (forall from: nat, to: nat :: world.fetch(from, to).Ok?)
    && forall i: nat :: world.outcome(i).Scanned?
  }

  /** Without failures one synchronisation brings the wallet up to the server. */
  lemma SyncReachesTip(w: Wallet, latest: Height, world: World)
    requires Complete(world) && Healthy(world, latest) && StartHeight(w).Some? && StartHeight(w).value <= latest
    ensures SyncFromTip(w, world).1 == None && SyncFromTip(w, world).0.tip == latest
  {
    hide Chunks, Recorded, AllBlocks, Added, ScannedTo, Complete;
    var from := StartHeight(w).value;
    NoError(w, from, latest, world, 0);
    CompleteChunks(w, from, latest, world);
    HealthyRecorded(from, latest, world, 0);
  }

  lemma {:induction false} NoError(w: Wallet, current: nat, latest: Height, world: World, i: nat)
    requires Healthy(world, latest)
    ensures Chunks(w, current, latest, world, i).1 == None
    decreases latest + 1 - current
  {
    hide Selected;
    if current <= latest {
      var to := Min(current + CHUNK - 1, latest);
      var (w', error) := Chunk(w, current, to, world, i);
      assert error == None;
      NoError(w', to + 1, latest, world, i + 1);
    }
  }

  lemma {:induction false} HealthyRecorded(current: nat, latest: Height, world: World, i: nat)
    requires Healthy(world, latest) && Complete(world) && current <= latest + 1
    ensures RecordedTo(current, latest, world, i) == latest
    decreases latest + 1 - current
  {
    if current <= latest {
      var to := Min(current + CHUNK - 1, latest);
      NoSkip(world, current, to, i);
      HealthyRecorded(to + 1, latest, world, i + 1);
    }
  }
}
