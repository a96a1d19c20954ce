/** Gaps below the chain tip: the exact conditions under which a synchronisation with empty answers, or
    the first scan of a new account, leaves heights that no later synchronisation scans. */
module SyncGaps {
  import opened ChainSync
  import opened SyncRuns
  import opened Wrappers

  // ----- Empty answers

  predicate IsRecorded(world: World, current: nat, target: Height, i: nat, j: nat) {
    Is(world, current, target, i, j, Passes) || Is(world, current, target, i, j, LastRecorded)
  }

  ghost predicate SomeRecorded(world: World, current: nat, target: Height, i: nat) {
    exists j: nat :: IsRecorded(world, current, target, i, j)
  }

  /** A chunk with an empty answer comes before one that is recorded. */
  ghost predicate EmptyBeforeRecorded(world: World, current: nat, target: Height, i: nat) {
    exists a: nat, b: nat :: a < b && Is(world, current, target, i, a, Skipped) &&
                             IsRecorded(world, current, target, i, b)
  }

  lemma RecordedNext(world: World, current: nat, target: Height, i: nat, j: nat)
    requires current <= target
    ensures
      var kind := KindOf(world, current, Min(current + CHUNK - 1, target), i);
      IsRecorded(world, current, target, i, j + 1) <==>
      (kind.Passes? || kind.Skipped?) && IsRecorded(world, current + CHUNK, target, i + 1, j)
  {
    hide KindOf, Is;
    IsNext(world, current, target, i, j, Passes);
    IsNext(world, current, target, i, j, LastRecorded);
  }

  /** How the two conditions depend on the first chunk. */
  lemma SomeRecordedNext(world: World, current: nat, target: Height, i: nat)
    requires current <= target
    ensures
      var kind := KindOf(world, current, Min(current + CHUNK - 1, target), i);
      SomeRecorded(world, current, target, i) <==>
      kind.LastRecorded? || kind.Passes? || (kind.Skipped? && SomeRecorded(world, current + CHUNK, target, i + 1))
  {
    hide KindOf, Is;
    var kind := KindOf(world, current, Min(current + CHUNK - 1, target), i);
    var c, i' := current + CHUNK, i + 1;
    IsFirst(world, current, target, i, Passes);
    IsFirst(world, current, target, i, LastRecorded);
    if j: nat :| IsRecorded(world, current, target, i, j) {
      if j > 0 {
        RecordedNext(world, current, target, i, j - 1);
      }
    }
    if kind.LastRecorded? || kind.Passes? {
      assert IsRecorded(world, current, target, i, 0);
    }
    if j: nat :| IsRecorded(world, c, target, i', j) {
      RecordedNext(world, current, target, i, j);
    }
  }

  lemma EmptyBeforeNext(world: World, current: nat, target: Height, i: nat)
    requires current <= target
    ensures
      var kind := KindOf(world, current, Min(current + CHUNK - 1, target), i);
      EmptyBeforeRecorded(world, current, target, i) <==>
      (kind.Skipped? && SomeRecorded(world, current + CHUNK, target, i + 1)) ||
      (kind.Passes? && EmptyBeforeRecorded(world, current + CHUNK, target, i + 1))
  {
    hide KindOf, Is, IsRecorded;
    var kind := KindOf(world, current, Min(current + CHUNK - 1, target), i);
    var c, i' := current + CHUNK, i + 1;
    IsFirst(world, current, target, i, Skipped);
    if a: nat, b: nat :|
      a < b && Is(world, current, target, i, a, Skipped) && IsRecorded(world, current, target, i, b)
    {
      RecordedNext(world, current, target, i, b - 1);
      assert IsRecorded(world, c, target, i', b - 1);
      if a > 0 {
        IsNext(world, current, target, i, a - 1, Skipped);
        if kind.Passes? {
          assert EmptyBeforeRecorded(world, c, target, i');
        }
      }
    }
    if kind.Skipped? {
      if b: nat :| IsRecorded(world, c, target, i', b) {
        RecordedNext(world, current, target, i, b);
        assert 0 < b + 1 && Is(world, current, target, i, 0, Skipped) && IsRecorded(world, current, target, i, b + 1);
      }
    }
    if kind.Passes? {
      if a: nat, b: nat :| a < b && Is(world, c, target, i', a, Skipped) && IsRecorded(world, c, target, i', b) {
        RecordedNext(world, current, target, i, b);
        IsNext(world, current, target, i, a, Skipped);
        assert a + 1 < b + 1 && IsRecorded(world, current, target, i, b + 1);
      }
    }
  }

  lemma Beyond(world: World, current: nat, target: Height, i: nat)
    requires current > target
    ensures !SomeRecorded(world, current, target, i) && !EmptyBeforeRecorded(world, current, target, i)
  {
    forall j: nat ensures !IsRecorded(world, current, target, i, j) {
      NotBeyond(world, current, target, i, j, Passes);
    }
  }

  /** The heights are all those from a height on, up to the last of them. */
  predicate IsInitial(heights: seq<nat>, from: nat) {
    heights == [] || heights == Range(from, heights[|heights| - 1])
  }

  /** The recorded heights that a synchronisation adds leave out none exactly when no chunk with an empty
      answer comes before a recorded one. */
  lemma {:induction false} AddedInitialIff(tip: int, current: nat, target: Height, world: World, i: nat)
    requires tip < current
    ensures
      var added := Added(current, target, world, i);
      var heights := Recorded(added);
      && (heights != [] <==> SomeRecorded(world, current, target, i))
      && (heights != [] ==> current <= heights[0] <= heights[|heights| - 1])
      && TipOf(tip, added) == (if heights == [] then tip else heights[|heights| - 1])
      && (IsInitial(heights, current) <==> !EmptyBeforeRecorded(world, current, target, i))
    decreases target + 1 - current
  {
    hide KindOf, SomeRecorded, EmptyBeforeRecorded, TipOf, Recorded, AllBlocks, IsInitial;
    AtMostOne(tip, current, Scan([], true));
    if current <= target {
      var to, c := Min(current + CHUNK - 1, target), current + CHUNK;
      var kind := KindOf(world, current, to, i);
      SomeRecordedNext(world, current, target, i);
      EmptyBeforeNext(world, current, target, i);
      AddedNext(current, target, world, i + 1);
      var head := Scan(Range(current, to), !kind.Lost?);
      match kind
      case Fails =>
      case Skipped =>
        AddedInitialIff(tip, c, target, world, i + 1);
        InitialFrom(Recorded(Added(c, target, world, i + 1)), current, c);
      case Passes =>
        AddedInitialIff(to, c, target, world, i + 1);
        Joined(tip, current, to, Added(c, target, world, i + 1));
        InitialFrom(Recorded(Added(c, target, world, i + 1)), to + 1, c);
      case Lost => AtMostOne(tip, current, head);
      case LastRecorded => AtMostOne(tip, current, head);
    } else {
      Beyond(world, current, target, i);
    }
  }

  lemma InitialFrom(heights: seq<nat>, a: nat, b: nat)
    requires a <= b && (heights != [] ==> b <= heights[0] <= heights[|heights| - 1])
    ensures IsInitial(heights, a) <==> heights == [] || (a == b && IsInitial(heights, b))
    ensures heights == [] ==> IsInitial(heights, b)
  {}

  lemma AtMostOne(tip: int, current: nat, s: Scan)
    requires s.blocks == [] || (s.blocks == Range(current, s.blocks[|s.blocks| - 1]) && tip < s.blocks[|s.blocks| - 1])
    ensures Recorded([]) == [] && IsInitial([], current) && TipOf(tip, []) == tip
    ensures s.blocks != [] ==>
              && Recorded([s]) == (if s.recorded then s.blocks else []) && IsInitial(s.blocks, current)
              && TipOf(tip, [s]) == if s.recorded then s.blocks[|s.blocks| - 1] else tip
  {
    hide Recorded, TipOf, AllBlocks;
    NoScan(tip);
    if s.blocks != [] {
      OneScan(tip, s);
    }
  }

  lemma Joined(tip: int, current: nat, to: nat, rest: seq<Scan>)
    requires tip < current <= to
    requires Recorded(rest) != [] ==> to + 1 <= Recorded(rest)[0] <= Recorded(rest)[|Recorded(rest)| - 1]
    requires TipOf(to, rest) == if Recorded(rest) == [] then to else Recorded(rest)[|Recorded(rest)| - 1]
    ensures
      var all := [Scan(Range(current, to), true)] + rest;
      var heights := Recorded(all);
      && heights != [] && heights[0] == current <= heights[|heights| - 1]
      && TipOf(tip, all) == heights[|heights| - 1]
      && (IsInitial(heights, current) <==> IsInitial(Recorded(rest), to + 1))
  {
    hide TipOf, Recorded;
    var head, heights := Range(current, to), Recorded(rest);
    var s := Scan(head, true);
    ScansAppend([s], rest);
    OneScan(tip, s);
    TipOfScan(tip, s, rest);
    if heights != [] {
      var last := heights[|heights| - 1];
      RangeJoin(current, to, last);
      if head + heights == Range(current, last) {
        assert heights == (head + heights)[|head|..];
        assert Range(to + 1, last) == Range(current, last)[|head|..];
      }
    } else {
      assert head + heights == head;
    }
  }

  /** Where the server may also answer with no blocks, a synchronisation keeps the recorded heights one
      interval up to the tip exactly when no chunk with an empty answer comes before a recorded one. */
  lemma SyncCoversIff(w: Wallet, start: nat, world: World)
    requires Covers(w, start) && AllOrNothing(world)
    ensures
      Covers(SyncFromTip(w, world).0, NextStart(w, start, SyncMessage(world))) <==>
      !(world.latest.Ok? && world.tipError.None? && StartHeight(w).Some? &&
          EmptyBeforeRecorded(world, StartHeight(w).value, world.latest.value, 0))
  {
    hide EmptyBeforeRecorded, TipOf, Recorded, AllBlocks, Added, Chunks, AllOrNothing;
    if world.latest.Ok? && world.tipError.None? && StartHeight(w).Some? {
      var from, latest := StartHeight(w).value, world.latest.value;
      var added := Added(from, latest, world, 0);
      var heights := Recorded(added);
      ChunksAdd(w, from, latest, world, 0);
      AddedInitialIff(w.tip, from, latest, world, 0);
      ScansAppend(w.scans, added);
      if w.tip == 0 {
        assert [] + heights == heights;
      } else {
        CoversFrom(start, w.tip, heights);
      }
    }
  }

  lemma CoversFrom(start: nat, tip: nat, heights: seq<nat>)
    requires start <= tip + 1
    requires heights != [] ==> tip < heights[0] <= heights[|heights| - 1]
    ensures
      IsInitial(heights, tip + 1) <==>
      Range(start, tip) + heights == Range(start, if heights == [] then tip else heights[|heights| - 1])
  {
    if heights != [] {
      var last := heights[|heights| - 1];
      RangeJoin(start, tip, last);
      if Range(start, tip) + heights == Range(start, last) {
        assert heights == (Range(start, tip) + heights)[|Range(start, tip)|..];
        assert Range(tip + 1, last) == Range(start, last)[|Range(start, tip)|..];
      }
    }
  }

  /** An empty answer for the first chunk: it is passed over, and the tip moves past it. */
  lemma EmptyAnswerLeavesGap(w: Wallet, world: World)
    requires w == Wallet(0, [], [2]) && world.latest == Ok(41) && world.tipError.None?
    requires world.fetch(2, 21) == Ok([]) && world.fetch(22, 41) == Ok(Range(22, 41)) && world.outcome(1).Scanned?
    ensures SyncFromTip(w, world) == (Wallet(41, [Scan(Range(22, 41), true)], [2]), None)
  {
    var blocks := Range(22, 41);
    SelectedAll(blocks, 22, |blocks|);
    var w' := Wallet(41, [Scan(blocks, true)], [2]);
    assert Chunk(w, 2, 21, world, 0) == (w, None);
    assert w.scans + [Scan(blocks, true)] == w'.scans;
    assert Chunk(w, 22, 41, world, 1) == (w', None);
    assert Chunks(w', 42, 41, world, 2) == (w', None);
    assert Chunks(w, 22, 41, world, 1) == (w', None);
  }

  // ----- First scans of new accounts

  /** Of the heights from a start on, the recorded ones are those up to the tip. */
  ghost predicate Solid(w: Wallet, start: nat) {
    if w.tip == 0 then forall h <- Recorded(w.scans) :: h == 0
    else start <= w.tip + 1 && forall h: nat :: start <= h ==> (h in Recorded(w.scans) <==> h <= w.tip)
  }

  /** The message is the first scan of an account whose birthday lies beyond the next height, or beyond the
      height at which the scan for the accounts listed is to begin, and its first chunk is recorded. */
  predicate Jumps(w: Wallet, m: Message) {
    && m.NewAccountMessage? && m.world.latest.Ok?
    && var b := ResolveBirthday(m.birthday, m.regtest, m.world.latest.value);
    (if w.tip > 0 then w.tip + 1 else FirstStart(w, b)) < b && IsRecorded(m.world, b, m.world.latest.value, 0, 0)
  }

  lemma InRange(from: nat, last: int, h: nat)
    ensures h in Range(from, last) <==> from <= h <= last
  {
    if from <= h <= last {
      assert Range(from, last)[h - from] == h;
    }
  }

  /** Something is recorded exactly when the first chunk is. */
  lemma RecordedFirst(current: nat, target: Height, world: World)
    requires Complete(world)
    ensures current <= RecordedTo(current, target, world, 0) <==> IsRecorded(world, current, target, 0, 0)
  {
    if current <= target {
      var to := Min(current + CHUNK - 1, target);
      IsFirst(world, current, target, 0, Passes);
      IsFirst(world, current, target, 0, LastRecorded);
      NoSkip(world, current, to, 0);
    } else {
      NotBeyond(world, current, target, 0, 0, Passes);
      NotBeyond(world, current, target, 0, 0, LastRecorded);
    }
  }

  /** A synchronisation of any range leaves out no height from the start on, unless it begins beyond the
      next height and records something. */
  lemma RangeSolid(w: Wallet, start: nat, first: nat, from: nat, target: Height, world: World)
    requires Solid(w, start) && Complete(world) && (first == from || 0 < first < from)
    ensures
      var w' := Chunks(w, from, target, world, 0).0;
      Solid(w', if w.tip == 0 then first else start) <==>
      !((if w.tip > 0 then w.tip + 1 else first) < from && IsRecorded(world, from, target, 0, 0))
  {
    hide Chunks, Recorded, AllBlocks, Added, RecordedTo, ScannedTo, IsRecorded, Complete;
    var w' := Chunks(w, from, target, world, 0).0;
    var r := RecordedTo(from, target, world, 0);
    CompleteChunks(w, from, target, world);
    RecordedFirst(from, target, world);
    var start' := if w.tip == 0 then first else start;
    forall h: nat ensures h in Recorded(w'.scans) <==> h in Recorded(w.scans) || from <= h <= r {
      InRange(from, r, h);
    }
    var h: nat := if w.tip > 0 then w.tip + 1 else first;
    if h < from <= r {
      assert start' <= h <= w'.tip && h !in Recorded(w'.scans);
    }
  }

  lemma RewindSolid(w: Wallet, start: nat, p: Height)
    requires Solid(w, start)
    ensures Solid(Truncate(w, p), if p < start then p + 1 else start)
  {
    hide Recorded, TruncateScans, UpTo;
    RecordedTruncate(w.scans, p);
    forall h: nat ensures h in UpTo(Recorded(w.scans), p) <==> h in Recorded(w.scans) && h <= p {
      UpToMember(Recorded(w.scans), p, h);
    }
  }

  /** Every message keeps the recorded heights without a gap below the tip, unless it jumps. */
  lemma StepSolidIff(w: Wallet, start: nat, m: Message)
    requires Solid(w, start) && CompleteMessage(m)
    ensures Solid(Step(w, m), NextStart(w, start, m)) <==> !Jumps(w, m)
  {
    hide Chunks, IsRecorded, Complete, Truncate, Recorded;
    match m
    case SyncMessage(world) =>
      if world.latest.Ok? && world.tipError.None? && StartHeight(w).Some? {
        RangeSolid(w, start, StartHeight(w).value, StartHeight(w).value, world.latest.value, world);
      }
    case RegisterMessage(birthday, regtest, latest, answer) =>
      RewindSolid(w, start, Max(ResolveBirthday(birthday, regtest, latest) - 1, 0));
    case NewAccountMessage(birthday, regtest, world) =>
      if world.latest.Ok? {
        var b := ResolveBirthday(birthday, regtest, world.latest.value);
        RangeSolid(w, start, FirstStart(w, b), b, world.latest.value, world);
      }
    case Restart =>
  }

  ghost predicate SolidAfter(run: seq<Message>, n: nat)
    requires n <= |run|
  {
    Solid(After(run[..n]), RunStart(run[..n]))
  }

  predicate JumpsAt(run: seq<Message>, k: nat)
    requires k < |run|
  {
    Jumps(After(run[..k]), run[k])
  }

  /** Over every run there is never a gap between the start of the wallet's interval and the tip exactly
      when no message jumps. */
  lemma {:induction false} NeverGapIff(run: seq<Message>)
    requires forall m <- run :: CompleteMessage(m)
    ensures (forall n: nat :: n <= |run| ==> SolidAfter(run, n)) <==> (forall k: nat :: k < |run| ==> !JumpsAt(run, k))
  {
    hide Solid, Jumps, Step, NextStart, CompleteMessage, SolidAfter, JumpsAt, After, RunStart;
    if run == [] {
      assert SolidAfter(run, 0) by { NothingSolid(run); }
    } else {
      var n := |run| - 1;
      var prefix, m := run[..n], run[n];
      assert m in run;
      NeverGapIff(prefix);
      forall k: nat | k <= n
        ensures SolidAfter(prefix, k) <==> SolidAfter(run, k)
        ensures k < n ==> (JumpsAt(prefix, k) <==> JumpsAt(run, k))
      {
        SamePrefix(run, n, k);
      }
      if SolidAfter(run, n) {
        LastStepIff(run);
      }
    }
  }

  lemma SamePrefix(run: seq<Message>, n: nat, k: nat)
    requires k <= n <= |run|
    ensures SolidAfter(run[..n], k) <==> SolidAfter(run, k)
    ensures k < n ==> (JumpsAt(run[..n], k) <==> JumpsAt(run, k))
  {
    hide Solid, Jumps, After, RunStart;
    assert run[..n][..k] == run[..k];
  }

  lemma LastStepIff(run: seq<Message>)
    requires run != [] && CompleteMessage(run[|run| - 1]) && SolidAfter(run, |run| - 1)
    ensures SolidAfter(run, |run|) <==> !JumpsAt(run, |run| - 1)
  {
    hide Solid, Jumps, Step, NextStart, CompleteMessage;
    var n := |run| - 1;
    assert run[..n + 1] == run;
    StepSolidIff(After(run[..n]), RunStart(run[..n]), run[n]);
  }

  lemma NothingSolid(run: seq<Message>)
    ensures SolidAfter(run, 0)
  {}

  /** A jump: a new account whose birthday is the latest height 200, while the wallet stands at 119.
      Nothing fails, heights 120 to 199 stay out, and the next synchronisation starts at 201. */
  lemma NewAccountJumps(w: Wallet, world: World)
    requires w.tip == 119 && Complete(world) && Healthy(world, 200)
    ensures
      var (w', error) := SyncNewAccount(w, 0, false, world);
      && error == None && w' == w.(scans := w.scans + [Scan(Range(200, 200), true)], tip := 200)
      && StartHeight(w') == Some(201)
  {
    var blocks := Range(200, 200);
    SelectedAll(blocks, 200, |blocks|);
    var w' := w.(scans := w.scans + [Scan(blocks, true)], tip := 200);
    assert |blocks| == 1;
    assert Chunk(w, 200, 200, world, 0) == (w', None);
    assert Chunks(w', 201, 200, world, 1) == (w', None);
  }

  // ----- What a new account's first scan covers

  predicate IsScanned(world: World, current: nat, target: Height, i: nat, j: nat) {
    IsRecorded(world, current, target, i, j) || Is(world, current, target, i, j, Lost)
  }

  lemma ScannedNext(world: World, current: nat, target: Height, i: nat, j: nat)
    requires current <= target && Complete(world)
    ensures IsScanned(world, current, target, i, 0) <==>
            !KindOf(world, current, Min(current + CHUNK - 1, target), i).Fails?
    ensures IsScanned(world, current, target, i, j + 1) <==>
            KindOf(world, current, Min(current + CHUNK - 1, target), i).Passes? &&
            IsScanned(world, current + CHUNK, target, i + 1, j)
  {
    hide KindOf, Is, Complete;
    NoSkip(world, current, Min(current + CHUNK - 1, target), i);
    IsFirst(world, current, target, i, Passes);
    IsFirst(world, current, target, i, LastRecorded);
    IsFirst(world, current, target, i, Lost);
    RecordedNext(world, current, target, i, j);
    IsNext(world, current, target, i, j, Lost);
  }

  /** Every chunk that starts at or below a height is reached and scanned. */
  ghost predicate AllScanned(world: World, current: nat, target: Height, i: nat, tip: nat) {
    forall j: nat :: current + CHUNK * j <= tip ==> IsScanned(world, current, target, i, j)
  }

  lemma AllScannedNext(world: World, current: nat, target: Height, i: nat, tip: nat)
    requires current <= target && current <= tip && Complete(world)
    ensures
      var kind := KindOf(world, current, Min(current + CHUNK - 1, target), i);
      AllScanned(world, current, target, i, tip) <==>
      !kind.Fails? &&
      (tip < current + CHUNK || (kind.Passes? && AllScanned(world, current + CHUNK, target, i + 1, tip)))
  {
    hide KindOf, IsScanned, Complete;
    var kind := KindOf(world, current, Min(current + CHUNK - 1, target), i);
    var c, i' := current + CHUNK, i + 1;
    ScannedNext(world, current, target, i, 0);
    if AllScanned(world, current, target, i, tip) {
      assert current + CHUNK * 0 <= tip;
      forall j: nat | c + CHUNK * j <= tip ensures IsScanned(world, c, target, i', j) {
        assert current + CHUNK * (j + 1) <= tip;
        ScannedNext(world, current, target, i, j);
      }
      if tip >= c {
        assert current + CHUNK * 1 <= tip;
      }
    }
    if !kind.Fails? && (tip < c || (kind.Passes? && AllScanned(world, c, target, i', tip))) {
      forall j: nat | current + CHUNK * j <= tip ensures IsScanned(world, current, target, i, j) {
        if j > 0 {
          assert c + CHUNK * (j - 1) <= tip;
          ScannedNext(world, current, target, i, j - 1);
        }
      }
    }
  }

  lemma {:induction false} ScannedToIff(current: nat, target: Height, world: World, i: nat, tip: nat)
    requires Complete(world)
    ensures tip <= ScannedTo(current, target, world, i) <==>
            tip < current || (tip <= target && AllScanned(world, current, target, i, tip))
    decreases target + 1 - current
  {
    hide KindOf, AllScanned, Complete;
    if current <= target && current <= tip {
      var to := Min(current + CHUNK - 1, target);
      NoSkip(world, current, to, i);
      AllScannedNext(world, current, target, i, tip);
      if current + CHUNK <= target {
        ScannedToIff(current + CHUNK, target, world, i + 1, tip);
      }
    }
  }

  /** The first scan of a new account covers all heights from its birthday to the tip exactly when the
      birthday is beyond the old tip, or the server is not behind the wallet and no chunk that starts at
      or below the old tip fails. */
  lemma NewAccountScannedIff(w: Wallet, birthday: Height, regtest: bool, latest: Height, world: World)
    requires Complete(world) && world.latest == Ok(latest)
    ensures
      var b := ResolveBirthday(birthday, regtest, latest);
      var w' := SyncNewAccount(w, birthday, regtest, world).0;
      && w.scans <= w'.scans
      && ((forall h: nat :: b <= h <= w'.tip ==> h in AllBlocks(w'.scans[|w.scans|..])) <==>
          w.tip < b || (w.tip <= latest && AllScanned(world, b, latest, 0, w.tip)))
  {
    hide Chunks, Recorded, AllBlocks, Added, RecordedTo, ScannedTo, AllScanned, Complete;
    var b := ResolveBirthday(birthday, regtest, latest);
    var w' := SyncNewAccount(w, birthday, regtest, world).0;
    var s := ScannedTo(b, latest, world, 0);
    CompleteChunks(w, b, latest, world);
    AddedIntervals(w.tip, b, latest, world, 0);
    ScannedToIff(b, latest, world, 0, w.tip);
    assert w'.scans[|w.scans|..] == Added(b, latest, world, 0);
    forall h: nat ensures h in AllBlocks(w'.scans[|w.scans|..]) <==> b <= h <= s {
      InRange(b, s, h);
    }
    if w.tip >= b {
      var tip: nat := w'.tip;
      assert b <= tip && (tip <= s <==> w.tip <= s);
      assert tip in AllBlocks(w'.scans[|w.scans|..]) <==> tip <= s;
    }
  }

  /** All scans from number n on are chunks above a height. */
  predicate NewAbove(scans: seq<Scan>, n: nat, tip: int) {
    forall j :: n <= j < |scans| ==> IsChunk(scans[j]) && tip < scans[j].blocks[0]
  }

  lemma NewAboveJoin(a: seq<Scan>, b: seq<Scan>, c: seq<Scan>, low: int, tip: int)
    requires a <= b <= c && NewAbove(b, |a|, low) && NewAbove(c, |b|, tip) && low <= tip
    ensures NewAbove(c, |a|, low)
  {
    forall j | |a| <= j < |c| ensures IsChunk(c[j]) && low < c[j].blocks[0] {
      if j < |b| {
        assert c[j] == b[j];
      }
    }
  }

  /** A synchronisation or registration without a rewind adds chunks above the tip. */
  lemma StepAddsAbove(w: Wallet, m: Message)
    requires CompleteMessage(m) && !Rewinds(m) && !m.NewAccountMessage?
    ensures w.scans <= Step(w, m).scans && w.tip <= Step(w, m).tip
    ensures NewAbove(Step(w, m).scans, |w.scans|, w.tip)
  {
    hide Step;
    StepAdds(w, m);
    if FirstHeight(w, m).Some? {
      var all, n := Step(w, m).scans, |w.scans|;
      forall j | n <= j < |all| ensures IsChunk(all[j]) && w.tip < all[j].blocks[0] {
        assert all[n..][j - n] == all[j];
      }
    }
  }

  /** What the wallet has not scanned up to the tip it never will, unless an account is rewound or scanned
      for the first time. */
  lemma {:induction false} NeverRevisited(run: seq<Message>, later: seq<Message>)
    requires forall m <- later :: CompleteMessage(m) && !Rewinds(m) && !m.NewAccountMessage?
    ensures After(run).scans <= After(run + later).scans && After(run).tip <= After(run + later).tip
    ensures NewAbove(After(run + later).scans, |After(run).scans|, After(run).tip)
  {
    hide IsChunk, Step, CompleteMessage, Rewinds;
    if later == [] {
      assert run + later == run;
    } else {
      var n := |later| - 1;
      var m := later[n];
      assert m in later;
      NeverRevisited(run, later[..n]);
      assert (run + later)[..|run + later| - 1] == run + later[..n];
      var before, after := After(run + later[..n]), After(run + later);
      StepAddsAbove(before, m);
      NewAboveJoin(After(run).scans, before.scans, after.scans, After(run).tip, before.tip);
    }
  }

  /** A first scan that stops halfway: heights 70 to 99 stay out for the new account, with the tip at 119
      from the account before, and the next synchronisation starts at 120. */
  lemma NewAccountStopsHalfway(w: Wallet, world: World)
    requires w.tip == 119 && Complete(world) && world.latest == Ok(200)
    requires world.outcome(0).Scanned? && world.fetch(50, 69).Ok? && world.fetch(70, 89).Err?
    ensures
      var (w', error) := SyncNewAccount(w, 50, true, world);
      error.Some? && w'.scans == w.scans + [Scan(Range(50, 69), true)] && StartHeight(w') == Some(120)
  {
    var blocks := Range(50, 69);
    SelectedAll(blocks, 50, |blocks|);
    var w' := w.(scans := w.scans + [Scan(blocks, true)]);
    assert Chunk(w, 50, 69, world, 0) == (w', None);
    assert Chunks(w', 70, 200, world, 1).0 == w';
  }
}
