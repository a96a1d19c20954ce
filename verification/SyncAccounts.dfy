/** Which heights an account gets scanned: over any run after its registration, with other accounts,
    failures, rewinds and restarts in between. */
module SyncAccounts {
  import opened ChainSync
  import opened SyncGaps
  import opened SyncRuns
  import opened Wrappers

  // ----- What one message scans

  /** The first height that the message asks the server for, if it comes to that, and the last. */
  function AskedFrom(w: Wallet, m: Message): Option<nat> {
    if m.SyncMessage? && (m.world.latest.Err? || m.world.tipError.Some?) then None else FirstHeight(w, m)
  }

  /** The message scans a height. */
  predicate ScansHeight(w: Wallet, m: Message, h: nat) {
    AskedFrom(w, m).Some? &&
    AskedFrom(w, m).value <= h <= ScannedTo(AskedFrom(w, m).value, m.world.latest.value, m.world, 0)
  }

  /** The message moves the tip past a height that it does not ask for. */
  predicate JumpsOver(w: Wallet, m: Message, h: nat) {
    && AskedFrom(w, m).Some? && w.tip < h < AskedFrom(w, m).value
    && IsRecorded(m.world, AskedFrom(w, m).value, m.world.latest.value, 0, 0)
  }

  lemma {:induction false} AllBlocksTruncate(scans: seq<Scan>, p: nat)
    ensures AllBlocks(TruncateScans(scans, p)) == UpTo(AllBlocks(scans), p)
  {
    if scans != [] {
      AllBlocksTruncate(scans[1..], p);
      UpToAppend(scans[0].blocks, AllBlocks(scans[1..]), p);
      assert TruncateScans(scans, p)[1..] == TruncateScans(scans[1..], p);
    }
  }

  lemma {:induction false} TruncateDrop(scans: seq<Scan>, p: nat, n: nat)
    requires n <= |scans|
    ensures |TruncateScans(scans, p)| == |scans|
    ensures TruncateScans(scans, p)[n..] == TruncateScans(scans[n..], p)
  {
    if n > 0 {
      TruncateDrop(scans[1..], p, n - 1);
      assert scans[1..][n - 1..] == scans[n..];
      assert TruncateScans(scans, p)[n..] == TruncateScans(scans[1..], p)[n - 1..];
    } else if scans != [] {
      TruncateDrop(scans[1..], p, 0);
    }
  }

  /** One message: what is scanned since some point is kept unless it is rewound, and what the message
      scans is added. */
  lemma StepScans(w: Wallet, m: Message, n: nat, h: nat)
    requires CompleteMessage(m) && n <= |w.scans|
    ensures n <= |Step(w, m).scans|
    ensures h in AllBlocks(Step(w, m).scans[n..]) <==>
            (h in AllBlocks(w.scans[n..]) && Spares(m, h)) || ScansHeight(w, m, h)
  {
    hide Chunks, Added, TruncateScans, Recorded, AllBlocks, ScannedTo, RecordedTo, Complete, UpTo, StartHeight;
    if AskedFrom(w, m).Some? {
      var from, latest := AskedFrom(w, m).value, m.world.latest.value;
      var added := Added(from, latest, m.world, 0);
      CompleteChunks(w, from, latest, m.world);
      AddedIntervals(w.tip, from, latest, m.world, 0);
      assert (w.scans + added)[n..] == w.scans[n..] + added;
      ScansAppend(w.scans[n..], added);
      InRange(from, ScannedTo(from, latest, m.world, 0), h);
    } else if Rewinds(m) {
      var p := Max(ResolveBirthday(m.birthday, m.regtest, m.latest) - 1, 0);
      TruncateDrop(w.scans, p, n);
      AllBlocksTruncate(w.scans[n..], p);
      UpToMember(AllBlocks(w.scans[n..]), p, h);
    }
  }

  /** One message: the tip stays at or above a height exactly when it was and the message spares it, or
      when the message passes it. */
  lemma StepTip(w: Wallet, m: Message, h: nat)
    requires CompleteMessage(m)
    ensures h <= w.tip && Spares(m, h) ==> h <= Step(w, m).tip
    ensures w.tip < h <= Step(w, m).tip ==> ScansHeight(w, m, h) || JumpsOver(w, m, h)
    ensures h <= Step(w, m).tip ==> Spares(m, h)
    ensures JumpsOver(w, m, h) ==> h <= Step(w, m).tip
  {
    hide Chunks, Added, TruncateScans, Recorded, AllBlocks, ScannedTo, RecordedTo, Complete, IsRecorded, StartHeight;
    if AskedFrom(w, m).Some? {
      var from, latest := AskedFrom(w, m).value, m.world.latest.value;
      CompleteChunks(w, from, latest, m.world);
      RecordedFirst(from, latest, m.world);
    }
  }

  // ----- Runs

  lemma {:induction false} ScansGrow(run: seq<Message>, n: nat)
    requires n <= |run| && forall m <- run :: CompleteMessage(m)
    ensures |After(run[..n]).scans| <= |After(run).scans|
    decreases |run|
  {
    hide Step, CompleteMessage;
    if n == |run| {
      assert run[..n] == run;
    } else {
      var last := |run| - 1;
      assert run[last] in run && run[..last][..n] == run[..n];
      ScansGrow(run[..last], n);
      StepScans(After(run[..last]), run[last], |After(run[..last]).scans|, 0);
    }
  }

  /** What is scanned after message k, and not rewound since. */
  ghost function ScannedSince(run: seq<Message>, k: nat): seq<nat>
    requires k < |run| && forall m <- run :: CompleteMessage(m)
  {
    ScansGrow(run, k + 1);
    AllBlocks(After(run).scans[|After(run[..k + 1]).scans|..])
  }

  /** No message after number l rewinds the wallet below a height. */
  predicate SparedFrom(run: seq<Message>, l: nat, h: nat) {
    forall i :: l < i < |run| ==> Spares(run[i], h)
  }

  /** A message after number k scans the height, and no later one rewinds below it. */
  ghost predicate Covered(run: seq<Message>, k: nat, h: nat) {
    exists l :: k < l < |run| && ScansHeight(After(run[..l]), run[l], h) && SparedFrom(run, l, h)
  }

  /** The height is at or below the tip when message k is handled, or message l after it jumps over the
      height; and no later one rewinds below it. */
  predicate LeftOut(run: seq<Message>, k: nat, l: nat, h: nat) {
    && k <= l < |run| && SparedFrom(run, l, h)
    && if l == k then h <= After(run[..k + 1]).tip else JumpsOver(After(run[..l]), run[l], h)
  }

  lemma ScannedSinceNext(run: seq<Message>, k: nat, h: nat)
    requires (forall m <- run :: CompleteMessage(m)) && k + 1 < |run|
    ensures forall m <- run[..|run| - 1] :: CompleteMessage(m)
    ensures
      var n := |run| - 1;
      h in ScannedSince(run, k) <==>
           (h in ScannedSince(run[..n], k) && Spares(run[n], h)) || ScansHeight(After(run[..n]), run[n], h)
  {
    hide Step, CompleteMessage, AllBlocks, ScansHeight, Spares;
    var n := |run| - 1;
    assert run[n] in run && run[..n][..k + 1] == run[..k + 1];
    ScansGrow(run[..n], k + 1);
    StepScans(After(run[..n]), run[n], |After(run[..k + 1]).scans|, h);
  }

  lemma NothingSince(run: seq<Message>, k: nat)
    requires (forall m <- run :: CompleteMessage(m)) && k + 1 == |run|
    ensures ScannedSince(run, k) == []
  {
    hide After, CompleteMessage;
    assert run[..k + 1] == run;
  }

  lemma SparedNext(run: seq<Message>, l: nat, h: nat)
    requires l + 1 < |run|
    ensures SparedFrom(run, l, h) <==> SparedFrom(run[..|run| - 1], l, h) && Spares(run[|run| - 1], h)
  {
    hide Spares;
    forall i | l < i < |run| - 1 ensures run[..|run| - 1][i] == run[i] {
    }
  }

  lemma CoveredNext(run: seq<Message>, k: nat, h: nat)
    requires k + 1 < |run|
    ensures
      var n := |run| - 1;
      Covered(run, k, h) <==> (Covered(run[..n], k, h) && Spares(run[n], h)) || ScansHeight(After(run[..n]), run[n], h)
  {
    hide Spares, ScansHeight, SparedFrom, After;
    var n := |run| - 1;
    forall l: nat | k < l < n
      ensures run[..n][..l] == run[..l] && run[..n][l] == run[l]
      ensures SparedFrom(run, l, h) <==> SparedFrom(run[..n], l, h) && Spares(run[n], h)
    {
      SparedNext(run, l, h);
    }
    assert SparedFrom(run, n, h) by { SparedLast(run, h); }
    if Covered(run[..n], k, h) && Spares(run[n], h) {
      var l :| k < l < n && ScansHeight(After(run[..n][..l]), run[..n][l], h) && SparedFrom(run[..n], l, h);
      assert ScansHeight(After(run[..l]), run[l], h) && SparedFrom(run, l, h);
    }
  }

  lemma SparedLast(run: seq<Message>, h: nat)
    requires run != []
    ensures SparedFrom(run, |run| - 1, h)
  {}

  /** A height is among what is scanned since exactly when a message scans it and none rewinds it later. */
  lemma {:induction false} ScannedSinceIff(run: seq<Message>, k: nat, h: nat)
    requires k < |run| && forall m <- run :: CompleteMessage(m)
    ensures h in ScannedSince(run, k) <==> Covered(run, k, h)
    decreases |run|
  {
    hide CompleteMessage, ScannedSince, ScansHeight, Spares, Covered;
    if k + 1 == |run| {
      NothingSince(run, k);
      assert !Covered(run, k, h) by { NothingCoveredYet(run, k, h); }
    } else {
      ScannedSinceNext(run, k, h);
      ScannedSinceIff(run[..|run| - 1], k, h);
      CoveredNext(run, k, h);
    }
  }

  lemma NothingCoveredYet(run: seq<Message>, k: nat, h: nat)
    requires k + 1 == |run|
    ensures !Covered(run, k, h)
  {}

  lemma LeftOutNext(run: seq<Message>, k: nat, l: nat, h: nat)
    requires k + 1 < |run|
    ensures
      var n := |run| - 1;
      && (l < n ==> (LeftOut(run, k, l, h) <==> LeftOut(run[..n], k, l, h) && Spares(run[n], h)))
      && (LeftOut(run, k, n, h) <==> JumpsOver(After(run[..n]), run[n], h))
  {
    hide Spares, JumpsOver, SparedFrom, After;
    var n := |run| - 1;
    SparedLast(run, h);
    if k <= l < n {
      SparedNext(run, l, h);
      assert run[..n][..l] == run[..l] && run[..n][..k + 1] == run[..k + 1];
    }
  }

  /** A height that is left out is at or below the tip. */
  lemma {:induction false} LeftOutBelowTip(run: seq<Message>, k: nat, l: nat, h: nat)
    requires (forall m <- run :: CompleteMessage(m)) && LeftOut(run, k, l, h)
    ensures h <= After(run).tip
    decreases |run|
  {
    hide CompleteMessage, Spares, JumpsOver, LeftOut, Step;
    var n := |run| - 1;
    if k == n {
      LeftOutAtOnce(run, l, h);
    } else {
      assert k <= l <= n by { LeftOutRange(run, k, l, h); }
      LeftOutNext(run, k, l, h);
      assert run[n] in run;
      StepTip(After(run[..n]), run[n], h);
      if l < n {
        LeftOutBelowTip(run[..n], k, l, h);
      }
    }
  }

  lemma LeftOutRange(run: seq<Message>, k: nat, l: nat, h: nat)
    requires LeftOut(run, k, l, h)
    ensures k <= l < |run|
  {}

  lemma LeftOutAtOnce(run: seq<Message>, l: nat, h: nat)
    requires run != []
    ensures LeftOut(run, |run| - 1, l, h) <==> l == |run| - 1 && h <= After(run).tip
  {
    hide After, JumpsOver;
    assert run[..|run|] == run;
  }

  /** A height at or below the tip that is not scanned since the registration was left out. */
  lemma {:induction false} UncoveredLeftOut(run: seq<Message>, k: nat, h: nat) returns (l: nat)
    requires k < |run| && (forall m <- run :: CompleteMessage(m))
    requires h <= After(run).tip && h !in ScannedSince(run, k)
    ensures LeftOut(run, k, l, h)
    decreases |run|
  {
    hide CompleteMessage, Spares, JumpsOver, ScansHeight, LeftOut, Step, ScannedSince;
    var n := |run| - 1;
    if k == n {
      LeftOutAtOnce(run, n, h);
      return n;
    }
    ScannedSinceNext(run, k, h);
    assert run[n] in run;
    StepTip(After(run[..n]), run[n], h);
    if h <= After(run[..n]).tip {
      l := UncoveredLeftOut(run[..n], k, h);
      LeftOutRange(run[..n], k, l, h);
    } else {
      l := n;
    }
    LeftOutNext(run, k, l, h);
  }

  /** Message k registers an account with a birthday. */
  predicate Registers(run: seq<Message>, k: nat, birthday: nat) {
    && k < |run| && run[k].RegisterMessage? && (run[k].answer.New? || run[k].answer.Known?)
    && birthday == ResolveBirthday(run[k].birthday, run[k].regtest, run[k].latest)
  }

  /** Every height from the birthday to the tip is scanned after the registration. */
  ghost predicate FullyScanned(run: seq<Message>, k: nat, birthday: nat)
    requires k < |run| && forall m <- run :: CompleteMessage(m)
  {
    forall h: nat :: birthday <= h <= After(run).tip ==> h in ScannedSince(run, k)
  }

  /** For every account of every run: all heights from its birthday to the tip are scanned after its
      registration exactly when a later message scans each height from the birthday on that is left out,
      because the tip was there already at the registration or because a message jumped over it. */
  lemma AccountScannedIff(run: seq<Message>, k: nat, birthday: nat)
    requires Registers(run, k, birthday) && forall m <- run :: CompleteMessage(m)
    ensures FullyScanned(run, k, birthday) <==>
            forall l: nat, h: nat :: birthday <= h && LeftOut(run, k, l, h) ==> Covered(run, k, h)
  {
    hide CompleteMessage, LeftOut, Covered, ScannedSince, Registers;
    assert k < |run| by { RegistersRange(run, k, birthday); }
    if FullyScanned(run, k, birthday) {
      forall l: nat, h: nat | birthday <= h && LeftOut(run, k, l, h) ensures Covered(run, k, h) {
        LeftOutBelowTip(run, k, l, h);
        ScannedSinceIff(run, k, h);
      }
    }
    if forall l: nat, h: nat :: birthday <= h && LeftOut(run, k, l, h) ==> Covered(run, k, h) {
      forall h: nat | birthday <= h <= After(run).tip ensures h in ScannedSince(run, k) {
        if h !in ScannedSince(run, k) {
          var l := UncoveredLeftOut(run, k, h);
          ScannedSinceIff(run, k, h);
        }
      }
    }
  }

  lemma RegistersRange(run: seq<Message>, k: nat, birthday: nat)
    requires Registers(run, k, birthday)
    ensures k < |run|
  {}

  /** Only the first scan of a new account comes back to a height at or below the tip. */
  lemma OnlyFirstScansReturn(w: Wallet, m: Message, h: nat)
    requires ScansHeight(w, m, h) && h <= w.tip
    ensures m.NewAccountMessage?
  {}

  // ----- Where a synchronisation begins

  lemma {:induction false} SmallestBirthday(accounts: seq<Height>)
    ensures accounts == [] ==> MinBirthday(accounts) == 0
    ensures accounts != [] ==> MinBirthday(accounts) in accounts && forall b <- accounts :: MinBirthday(accounts) <= b
  {
    if |accounts| > 1 {
      SmallestBirthday(accounts[1..]);
      assert accounts == [accounts[0]] + accounts[1..];
    }
  }

  /** A synchronisation begins above the tip; before the tip is set, at height 2 or at the birthday of an
      account listed, and not above the birthday of any. It does not begin at all for an error of the
      server or of the query for the tip, or, before the tip is set, without accounts or with one whose
      birthday is 0. */
  lemma SyncBeginsIff(w: Wallet, world: World, from: nat)
    ensures
      AskedFrom(w, SyncMessage(world)) == Some(from) <==>
      && world.latest.Ok? && world.tipError.None?
      && if w.tip > 0 then from == w.tip + 1
         else
           && w.accounts != [] && (forall b <- w.accounts :: 0 < b && from <= (if b < 2 then 2 else b))
           && from >= 2 && (from == 2 || from in w.accounts)
           && (from == 2 ==> exists b <- w.accounts :: b <= 2)
  {
    SmallestBirthday(w.accounts);
  }

  /** In every run: a synchronisation that moves the tip from below a height to it or beyond scans that
      height, if it is at least 2 and no lower than the birthday of some account listed. */
  lemma SyncScansWhatItPasses(run: seq<Message>, k: nat, birthday: Height, h: nat)
    requires k < |run| && run[k].SyncMessage? && CompleteMessage(run[k])
    requires birthday in After(run[..k]).accounts && birthday <= h && 2 <= h
    requires After(run[..k]).tip < h <= After(run[..k + 1]).tip
    ensures |After(run[..k]).scans| <= |After(run[..k + 1]).scans|
    ensures h in AllBlocks(After(run[..k + 1]).scans[|After(run[..k]).scans|..])
  {
    hide Step, StartHeight, ScansHeight, AllBlocks;
    var w, m := After(run[..k]), run[k];
    assert run[..k + 1][..k] == run[..k];
    StepTip(w, m, h);
    StepScans(w, m, |w.scans|, h);
    if AskedFrom(w, m).Some? {
      SyncBeginsIff(w, m.world, AskedFrom(w, m).value);
    }
  }

  /** An account that is registered stays listed until the daemon is restarted. */
  lemma {:induction false} ListedUntilRestart(run: seq<Message>, k: nat, birthday: Height)
    requires Registers(run, k, birthday) && forall i :: k < i < |run| ==> !run[i].Restart?
    ensures birthday in After(run).accounts
    decreases |run|
  {
    hide Chunks, Truncate;
    var n := |run| - 1;
    if k < n {
      assert run[..n][k] == run[k];
      ListedUntilRestart(run[..n], k, birthday);
      KeepsAccounts(After(run[..n]), run[n]);
    }
  }

  lemma KeepsAccounts(w: Wallet, m: Message)
    requires !m.Restart?
    ensures w.accounts <= Step(w, m).accounts
  {
    hide Chunks;
    if m.SyncMessage? && m.world.latest.Ok? && StartHeight(w).Some? {
      ChunksKeepAccounts(w, StartHeight(w).value, m.world.latest.value, m.world, 0);
    }
    if m.NewAccountMessage? && m.world.latest.Ok? {
      var b := ResolveBirthday(m.birthday, m.regtest, m.world.latest.value);
      ChunksKeepAccounts(w, b, m.world.latest.value, m.world, 0);
    }
  }

  lemma {:induction false} ChunksKeepAccounts(w: Wallet, current: nat, target: Height, world: World, i: nat)
    ensures Chunks(w, current, target, world, i).0.accounts == w.accounts
    decreases target + 1 - current
  {
    hide Selected;
    if current <= target {
      var to := Min(current + CHUNK - 1, target);
      var (w', error) := Chunk(w, current, to, world, i);
      if error.None? {
        ChunksKeepAccounts(w', to + 1, target, world, i + 1);
      }
    }
  }

  /** What is handed to the scanner: the blocks at or above a height, in their order, as many as allowed. */
  lemma {:induction false} SelectedAre(blocks: seq<nat>, from: nat, limit: nat, more: seq<nat>)
    requires |blocks| <= limit
    ensures |Selected(blocks, from, limit)| <= |blocks|
    ensures forall b :: b in Selected(blocks, from, limit) <==> b in blocks && from <= b
    ensures Selected(blocks + more, from, limit) ==
            Selected(blocks, from, limit) + Selected(more, from, limit - |Selected(blocks, from, limit)|)
  {
    if blocks == [] {
      assert blocks + more == more;
    } else {
      assert (blocks + more)[1..] == blocks[1..] + more;
      if blocks[0] >= from {
        SelectedAre(blocks[1..], from, limit - 1, more);
      } else {
        SelectedAre(blocks[1..], from, limit, more);
      }
    }
  }

  /** With the tip not set yet, an account with birthday 50 and one with birthday 100 are registered, and
      the second is scanned first. Nothing fails, heights 50 to 99 are left out for the first, and the next
      synchronisation starts at 101. */
  lemma SecondAccountFirst(world: World)
    requires Complete(world) && Healthy(world, 100)
    ensures
      var run := [RegisterMessage(50, true, 200, New), RegisterMessage(100, true, 200, New),
                  NewAccountMessage(100, true, world)];
      && After(run) == Wallet(100, [Scan(Range(100, 100), true)], [50, 100]) && StartHeight(After(run)) == Some(101)
      && (forall m <- run :: CompleteMessage(m))
      && JumpsAt(run, 2) && Registers(run, 0, 50) && !FullyScanned(run, 0, 50)
  {
    hide Selected, Complete, IsRecorded, RecordedTo, Chunks;
    var a, b, c := RegisterMessage(50, true, 200, New), RegisterMessage(100, true, 200, New),
                   NewAccountMessage(100, true, world);
    var run := [a, b, c];
    assert run[..2] == [a, b] && run[..1] == [a] && [a, b][..1] == [a] && [a][..0] == [];
    assert After([a]) == Wallet(0, [], [50]);
    var w, w' := Wallet(0, [], [50, 100]), Wallet(100, [Scan(Range(100, 100), true)], [50, 100]);
    assert After([a, b]) == w;
    LatestOnly(w, world);
    assert After(run) == w';
    assert 50 !in AllBlocks(w'.scans);
    assert w'.scans[0..] == w'.scans;
    assert 50 !in ScannedSince(run, 0);
  }

  lemma LatestOnly(w: Wallet, world: World)
    requires Complete(world) && Healthy(world, 100) && w.tip == 0
    ensures SyncNewAccount(w, 100, true, world).0 == w.(scans := w.scans + [Scan(Range(100, 100), true)], tip := 100)
    ensures IsRecorded(world, 100, 100, 0, 0)
  {
    var blocks := Range(100, 100);
    SelectedAll(blocks, 100, |blocks|);
    var w' := w.(scans := w.scans + [Scan(blocks, true)], tip := 100);
    assert |blocks| == 1;
    assert Chunk(w, 100, 100, world, 0) == (w', None);
    assert Chunks(w', 101, 100, world, 1) == (w', None);
    HealthyRecorded(100, 100, world, 0);
    RecordedFirst(100, 100, world);
  }
}
