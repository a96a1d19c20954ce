/** Block deinterleaving and block-wise correction of a scanned symbol (section 7.6 of
    ISO/IEC 18004:2015): interleaving the blocks of a message and reading them back. */
module DataBlocks {
  import opened Wrappers
  import opened GaloisField
  import opened Codewords
  import opened ReedSolomon

  /** The length of k rounds of n codewords. */
  function Rounds(k: nat, n: nat): nat {
    k * n
  }

  datatype EcBlock = EcBlock(numBlocks: nat, dataCodewordsPerBlock: nat)

  datatype EcInfo = EcInfo(ecCodewordsPerBlock: nat, ecBlocks: seq<EcBlock>) {
    /** The block layouts of the version tables: one group, or a second one with one more data codeword. */
    ghost predicate Valid() {
      && 1 <= |ecBlocks| <= 2
      && ecBlocks[0].dataCodewordsPerBlock > 0
      && (|ecBlocks| == 2 ==> ecBlocks[1].dataCodewordsPerBlock == ecBlocks[0].dataCodewordsPerBlock + 1)
    }

    function Short(): nat
      requires |ecBlocks| > 0
    {
      ecBlocks[0].dataCodewordsPerBlock
    }

    function SmallCount(): nat
      requires |ecBlocks| > 0
    {
      ecBlocks[0].numBlocks
    }

    function LargeCount(): nat {
      if |ecBlocks| > 1 then ecBlocks[1].numBlocks else 0
    }

    function Count(): nat
      requires |ecBlocks| > 0
    {
      SmallCount() + LargeCount()
    }

    /** The number of data codewords of block b. */
    function DataSize(b: nat): nat
      requires |ecBlocks| > 0
    {
      if b < SmallCount() then Short() else Short() + 1
    }

    function Total(): nat
      requires |ecBlocks| > 0
    {
      Rounds(Short(), Count()) + LargeCount() + Rounds(ecCodewordsPerBlock, Count())
    }

    /** The place in the symbol of entry o of block b. */
    function Place(b: nat, o: nat): nat
      requires |ecBlocks| > 0
    {
      if o < Short() then Rounds(o, Count()) + b
      else if o < DataSize(b) then Rounds(Short(), Count()) + (b - SmallCount())
      else Rounds(Short(), Count()) + LargeCount() + Rounds(o - DataSize(b), Count()) + b
    }
  }

  datatype DataBlock = DataBlock(numDataCodewords: nat, codewords: seq<GF>)

  lemma NextRound(k: nat, n: nat)
    ensures Rounds(k + 1, n) == Rounds(k, n) + n
    ensures Rounds(0, n) == 0
  {}

  lemma RoundsBelow(i: nat, b: nat, n: nat, m: nat)
    requires i < m && b < n
    ensures Rounds(i, n) + b < Rounds(i, n) + n <= Rounds(m, n)
  {
    var d := m - i - 1;
    assert m * n == i * n + n + d * n by {
      assert m == i + 1 + d;
    }
  }

  lemma PlaceInRange(info: EcInfo, b: nat, o: nat)
    requires info.Valid() && b < info.Count() && o < info.DataSize(b) + info.ecCodewordsPerBlock
    ensures info.Place(b, o) < info.Total()
  {
    hide Rounds;
    if o < info.Short() {
      RoundsBelow(o, b, info.Count(), info.Short());
    } else if o >= info.DataSize(b) {
      RoundsBelow(o - info.DataSize(b), b, info.Count(), info.ecCodewordsPerBlock);
    }
  }

  /** The first m entries of block b. */
  function Gather(codewords: seq<GF>, info: EcInfo, b: nat, m: nat): seq<GF>
    requires info.Valid() && b < info.Count() && m <= info.DataSize(b) + info.ecCodewordsPerBlock
    requires |codewords| >= info.Total()
  {
    if m == 0 then []
    else PlaceInRange(info, b, m - 1); Gather(codewords, info, b, m - 1) + [codewords[info.Place(b, m - 1)]]
  }

  /** Block b holds its first sizes[b] entries. */
  ghost predicate Filled(blocks: seq<DataBlock>, codewords: seq<GF>, info: EcInfo, sizes: seq<nat>) {
    && info.Valid() && |codewords| >= info.Total()
    && |blocks| == info.Count() == |sizes|
    && forall b: nat :: b < |blocks| ==>
                          && sizes[b] <= info.DataSize(b) + info.ecCodewordsPerBlock
                          && blocks[b] == DataBlock(info.DataSize(b), Gather(codewords, info, b, sizes[b]))
  }

  lemma PushEntry(blocks: seq<DataBlock>, codewords: seq<GF>, info: EcInfo, sizes: seq<nat>, b: nat)
    requires Filled(blocks, codewords, info, sizes) && b < |blocks|
    requires sizes[b] < info.DataSize(b) + info.ecCodewordsPerBlock
    ensures info.Place(b, sizes[b]) < info.Total()
    ensures Filled(blocks[b := blocks[b].(codewords := blocks[b].codewords + [codewords[info.Place(b, sizes[b])]])],
                   codewords, info, sizes[b := sizes[b] + 1])
  {
    PlaceInRange(info, b, sizes[b]);
  }

  /** k codewords have been taken: queue holds the others, and the blocks hold sizes of them. */
  ghost predicate Taken(queue: seq<GF>, blocks: seq<DataBlock>, codewords: seq<GF>, info: EcInfo, sizes: seq<nat>,
                        k: nat) {
    && Filled(blocks, codewords, info, sizes)
    && |blocks| == |sizes| == info.Count()
    && k <= info.Total() <= |codewords|
    && queue == codewords[k..info.Total()]
  }

  /** Moves the first codeword of the queue to block b. */
  method Shift(queue: seq<GF>, blocks: seq<DataBlock>, b: nat, ghost codewords: seq<GF>, info: EcInfo,
               ghost sizes: seq<nat>, ghost k: nat)
    returns (queue': seq<GF>, blocks': seq<DataBlock>, ghost sizes': seq<nat>)
    requires info.Valid() && Taken(queue, blocks, codewords, info, sizes, k) && b < |blocks|
    requires sizes[b] < info.DataSize(b) + info.ecCodewordsPerBlock && k == info.Place(b, sizes[b])
    ensures sizes' == sizes[b := sizes[b] + 1]
    ensures Taken(queue', blocks', codewords, info, sizes', k + 1)
  {
    hide Filled;
    PushEntry(blocks, codewords, info, sizes, b);
    queue' := queue[1..];
    blocks' := blocks[b := blocks[b].(codewords := blocks[b].codewords + [queue[0]])];
    sizes' := sizes[b := sizes[b] + 1];
  }

  lemma TotalByBlocks(info: EcInfo)
    requires info.Valid()
    ensures info.Total() == Rounds(info.Count(), info.Short() + info.ecCodewordsPerBlock) + info.LargeCount()
  {
    var n, s, e := info.Count(), info.Short(), info.ecCodewordsPerBlock;
    assert n * (s + e) == s * n + e * n;
  }

  /** Empty blocks with their data sizes, and the number of codewords they take. */
  method MakeBlocks(info: EcInfo) returns (dataBlocks: seq<DataBlock>, totalCodewords: nat)
    requires info.Valid()
    ensures |dataBlocks| == info.Count()
    ensures forall b: nat :: b < |dataBlocks| ==> dataBlocks[b] == DataBlock(info.DataSize(b), [])
    ensures totalCodewords == info.Total()
  {
    TotalByBlocks(info);
    hide Rounds;
    NextRound(0, info.Short() + info.ecCodewordsPerBlock);
    dataBlocks := [];
    totalCodewords := 0;
    for g := 0 to |info.ecBlocks|
      invariant |dataBlocks| == if g == 0 then 0 else if g == 1 then info.SmallCount() else info.Count()
      invariant forall b: nat :: b < |dataBlocks| ==> dataBlocks[b] == DataBlock(info.DataSize(b), [])
      invariant totalCodewords ==
                Rounds(|dataBlocks|, info.Short() + info.ecCodewordsPerBlock) + if g == 2 then info.LargeCount() else 0
    {
      var block := info.ecBlocks[g];
      ghost var start := |dataBlocks|;
      for i := 0 to block.numBlocks
        invariant |dataBlocks| == start + i
        invariant forall b: nat :: b < |dataBlocks| ==> dataBlocks[b] == DataBlock(info.DataSize(b), [])
        invariant totalCodewords ==
                  Rounds(|dataBlocks|, info.Short() + info.ecCodewordsPerBlock) + if g == 1 then i else 0
      {
        NextRound(start + i, info.Short() + info.ecCodewordsPerBlock);
        dataBlocks := dataBlocks + [DataBlock(block.dataCodewordsPerBlock, [])];
        totalCodewords := totalCodewords + (block.dataCodewordsPerBlock + info.ecCodewordsPerBlock);
      }
    }
  }

  /** One codeword to every block in turn. */
  method ShiftRound(queue: seq<GF>, blocks: seq<DataBlock>, ghost codewords: seq<GF>, info: EcInfo,
                    ghost sizes: seq<nat>, ghost k: nat)
    returns (queue': seq<GF>, blocks': seq<DataBlock>, ghost sizes': seq<nat>)
    requires info.Valid() && Taken(queue, blocks, codewords, info, sizes, k)
    requires forall b: nat :: b < |sizes| ==> sizes[b] < info.DataSize(b) + info.ecCodewordsPerBlock
    requires forall b: nat :: b < |sizes| ==> info.Place(b, sizes[b]) == k + b
    ensures |sizes'| == |sizes| && forall b: nat :: b < |sizes| ==> sizes'[b] == sizes[b] + 1
    ensures Taken(queue', blocks', codewords, info, sizes', k + |sizes|)
  {
    hide Filled;
    queue', blocks', sizes' := queue, blocks, sizes;
    for b := 0 to |blocks|
      invariant |sizes'| == |sizes| == |blocks| == |blocks'|
      invariant forall c: nat :: c < |sizes| ==> sizes'[c] == if c < b then sizes[c] + 1 else sizes[c]
      invariant Taken(queue', blocks', codewords, info, sizes', k + b)
    {
      queue', blocks', sizes' := Shift(queue', blocks', b, codewords, info, sizes', k + b);
    }
  }

  /** The rounds that fill the blocks up to the size of the smallest. */
  method ShiftShort(queue: seq<GF>, blocks: seq<DataBlock>, ghost codewords: seq<GF>, info: EcInfo,
                    ghost sizes: seq<nat>)
    returns (queue': seq<GF>, blocks': seq<DataBlock>, ghost sizes': seq<nat>)
    requires info.Valid() && Taken(queue, blocks, codewords, info, sizes, 0)
    requires forall b: nat :: b < |sizes| ==> sizes[b] == 0
    ensures |sizes'| == info.Count() && forall b: nat :: b < |sizes'| ==> sizes'[b] == info.Short()
    ensures Taken(queue', blocks', codewords, info, sizes', Rounds(info.Short(), info.Count()))
  {
    hide Taken, Rounds;
    NextRound(0, info.Count());
    TakenLength(queue, blocks, codewords, info, sizes, 0);
    queue', blocks', sizes' := queue, blocks, sizes;
    for i := 0 to info.ecBlocks[0].dataCodewordsPerBlock
      invariant |sizes'| == info.Count() && forall b: nat :: b < |sizes'| ==> sizes'[b] == i
      invariant Taken(queue', blocks', codewords, info, sizes', Rounds(i, info.Count()))
    {
      NextRound(i, info.Count());
      queue', blocks', sizes' := ShiftRound(queue', blocks', codewords, info, sizes', Rounds(i, info.Count()));
    }
  }

  lemma TakenLength(queue: seq<GF>, blocks: seq<DataBlock>, codewords: seq<GF>, info: EcInfo, sizes: seq<nat>, k: nat)
    requires Taken(queue, blocks, codewords, info, sizes, k)
    ensures |sizes| == |blocks| == info.Count() && k + |queue| == info.Total()
  {}

  /** The last data codeword of the large blocks. */
  method ShiftLarge(queue: seq<GF>, blocks: seq<DataBlock>, ghost codewords: seq<GF>, info: EcInfo,
                    ghost sizes: seq<nat>)
    returns (queue': seq<GF>, blocks': seq<DataBlock>, ghost sizes': seq<nat>)
    requires info.Valid() && Taken(queue, blocks, codewords, info, sizes, Rounds(info.Short(), info.Count()))
    requires forall b: nat :: b < |sizes| ==> sizes[b] == info.Short()
    ensures |sizes'| == info.Count() && forall b: nat :: b < |sizes'| ==> sizes'[b] == info.DataSize(b)
    ensures Taken(queue', blocks', codewords, info, sizes', Rounds(info.Short(), info.Count()) + info.LargeCount())
  {
    hide Filled, Rounds;
    queue', blocks', sizes' := queue, blocks, sizes;
    if |info.ecBlocks| > 1 {
      var smallBlockCount := info.ecBlocks[0].numBlocks;
      for i := 0 to info.ecBlocks[1].numBlocks
        invariant |sizes'| == |blocks'| == info.Count()
        invariant forall b: nat :: b < |sizes'| ==>
                                     sizes'[b] == if smallBlockCount <= b < smallBlockCount + i then info.Short() + 1
                                     else info.Short()
        invariant Taken(queue', blocks', codewords, info, sizes', Rounds(info.Short(), info.Count()) + i)
      {
        PlaceInRange(info, smallBlockCount + i, info.Short());
        queue', blocks', sizes' :=
          Shift(queue', blocks', smallBlockCount + i, codewords, info, sizes', Rounds(info.Short(), info.Count()) + i);
      }
    }
  }

  /** The check codewords, until the queue is empty. */
  method ShiftCheck(queue: seq<GF>, blocks: seq<DataBlock>, ghost codewords: seq<GF>, info: EcInfo,
                    ghost sizes: seq<nat>)
    returns (blocks': seq<DataBlock>, ghost sizes': seq<nat>)
    requires info.Valid() &&
             Taken(queue, blocks, codewords, info, sizes, Rounds(info.Short(), info.Count()) + info.LargeCount())
    requires forall b: nat :: b < |sizes| ==> sizes[b] == info.DataSize(b)
    ensures |sizes'| == info.Count() && forall b: nat :: b < |sizes'| ==>
                                                           sizes'[b] == info.DataSize(b) + info.ecCodewordsPerBlock
    ensures Taken([], blocks', codewords, info, sizes', info.Total())
  {
    hide Taken, Rounds;
    ghost var n, e := info.Count(), info.ecCodewordsPerBlock;
    ghost var start := Rounds(info.Short(), n) + info.LargeCount();
    NextRound(0, n);
    TakenLength(queue, blocks, codewords, info, sizes, start);
    var queue' := queue;
    blocks', sizes' := blocks, sizes;
    ghost var j := 0;
    while |queue'| > 0
      invariant j <= e && |sizes'| == n && forall b: nat :: b < n ==> sizes'[b] == info.DataSize(b) + j
      invariant Taken(queue', blocks', codewords, info, sizes', start + Rounds(j, n))
      invariant |queue'| == Rounds(e, n) - Rounds(j, n)
      decreases |queue'|
    {
      RoundsLeft(j, e, n);
      CheckRound(info, sizes', j);
      NextRound(j, n);
      queue', blocks', sizes' := ShiftRound(queue', blocks', codewords, info, sizes', start + Rounds(j, n));
      TakenLength(queue', blocks', codewords, info, sizes', start + Rounds(j + 1, n));
      j := j + 1;
    }
    RoundsLeft(j, e, n);
  }

  lemma RoundsLeft(j: nat, e: nat, n: nat)
    requires j <= e
    ensures Rounds(e, n) > Rounds(j, n) ==> j < e && n > 0
    ensures Rounds(e, n) == Rounds(j, n) ==> j == e || n == 0
  {
    if n > 0 && j < e {
      RoundsBelow(j, 0, n, e);
    }
  }

  lemma CheckRound(info: EcInfo, sizes: seq<nat>, j: nat)
    requires info.Valid() && |sizes| == info.Count() && j < info.ecCodewordsPerBlock
    requires forall b: nat :: b < |sizes| ==> sizes[b] == info.DataSize(b) + j
    ensures forall b: nat :: b < |sizes| ==>
                               && sizes[b] < info.DataSize(b) + info.ecCodewordsPerBlock
                               && info.Place(b, sizes[b]) ==
                                  Rounds(info.Short(), info.Count()) + info.LargeCount() + Rounds(j, info.Count()) + b
  {
    hide Rounds;
  }

  /** Reads the blocks back from the codewords of a symbol; None when there are too few. The queue
      never runs dry and every block gets the codewords at its places. */
  method GetDataBlocks(codewords: seq<GF>, info: EcInfo) returns (r: Option<seq<DataBlock>>)
    requires info.Valid()
    ensures r == None <==> |codewords| < info.Total()
    ensures r.Some? ==> |r.value| == info.Count()
    ensures r.Some? ==> forall b: nat :: b < info.Count() ==>
                                           var size := info.DataSize(b);
                                           r.value[b] ==
                                           DataBlock(size, Gather(codewords, info, b, size + info.ecCodewordsPerBlock))
  {
    var dataBlocks, totalCodewords := MakeBlocks(info);
    if |codewords| < totalCodewords {
      return None;
    }
    var queue := codewords[..totalCodewords];
    ghost var sizes: seq<nat> := seq(info.Count(), b => 0);
    EmptyFilled(dataBlocks, codewords, info, sizes);
    hide Gather;
    queue, dataBlocks, sizes := ShiftShort(queue, dataBlocks, codewords, info, sizes);
    queue, dataBlocks, sizes := ShiftLarge(queue, dataBlocks, codewords, info, sizes);
    dataBlocks, sizes := ShiftCheck(queue, dataBlocks, codewords, info, sizes);
    return Some(dataBlocks);
  }

  lemma EmptyFilled(blocks: seq<DataBlock>, codewords: seq<GF>, info: EcInfo, sizes: seq<nat>)
    requires info.Valid() && |codewords| >= info.Total()
    requires |blocks| == info.Count() == |sizes|
    requires forall b: nat :: b < |blocks| ==> sizes[b] == 0 && blocks[b] == DataBlock(info.DataSize(b), [])
    ensures Filled(blocks, codewords, info, sizes)
  {}

  // ----- Interleaving, column by column, as the standard describes it

  /** Entry i of each row that is long enough, from row b on. */
  function Column(rows: seq<seq<GF>>, b: nat, i: nat): seq<GF>
    decreases |rows| - b
  {
    if b >= |rows| then [] else (if i < |rows[b]| then [rows[b][i]] else []) + Column(rows, b + 1, i)
  }

  /** Columns i, ..., n - 1 one after the other. */
  function Columns(rows: seq<seq<GF>>, i: nat, n: nat): seq<GF>
    decreases n - i
  {
    if i >= n then [] else Column(rows, 0, i) + Columns(rows, i + 1, n)
  }

  /** The data codewords of all blocks by column, then their check codewords by column. */
  function Interleave(data: seq<seq<GF>>, check: seq<seq<GF>>, info: EcInfo): seq<GF>
    requires info.Valid()
  {
    Columns(data, 0, info.Short() + 1) + Columns(check, 0, info.ecCodewordsPerBlock)
  }

  ghost predicate Shaped(data: seq<seq<GF>>, check: seq<seq<GF>>, info: EcInfo) {
    && info.Valid()
    && |data| == |check| == info.Count()
    && (forall b: nat :: b < |data| ==> |data[b]| == info.DataSize(b) && |check[b]| == info.ecCodewordsPerBlock)
  }

  lemma {:induction false} FullColumn(rows: seq<seq<GF>>, b: nat, i: nat, c: nat)
    requires b <= c < |rows| && forall r :: b <= r < |rows| ==> i < |rows[r]|
    ensures |Column(rows, b, i)| == |rows| - b && Column(rows, b, i)[c - b] == rows[c][i]
    decreases |rows| - b
  {
    if b < c {
      FullColumn(rows, b + 1, i, c);
    } else if b + 1 < |rows| {
      FullColumn(rows, b + 1, i, b + 1);
    }
  }

  lemma FullColumnLength(rows: seq<seq<GF>>, i: nat)
    requires forall r :: 0 <= r < |rows| ==> i < |rows[r]|
    ensures |Column(rows, 0, i)| == |rows|
  {
    if |rows| > 0 {
      FullColumn(rows, 0, i, 0);
    }
  }

  /** As long as all rows reach, the columns form a full table. */
  lemma {:induction false} FullColumns(rows: seq<seq<GF>>, i: nat, m: nat, n: nat)
    requires i <= m <= n && forall r :: 0 <= r < |rows| ==> m <= |rows[r]|
    ensures |Columns(rows, i, n)| == Rounds(m - i, |rows|) + |Columns(rows, m, n)|
    ensures Columns(rows, i, n)[Rounds(m - i, |rows|)..] == Columns(rows, m, n)
    decreases m - i
  {
    hide Rounds;
    NextRound(0, |rows|);
    if i < m {
      FullColumns(rows, i + 1, m, n);
      FullColumnLength(rows, i);
      NextRound(m - (i + 1), |rows|);
    }
  }

  lemma {:induction false} FullColumnsEntry(rows: seq<seq<GF>>, i: nat, m: nat, n: nat, j: nat, c: nat)
    requires i <= j < m <= n && c < |rows| && forall r :: 0 <= r < |rows| ==> m <= |rows[r]|
    ensures Rounds(j - i, |rows|) + c < |Columns(rows, i, n)|
    ensures Columns(rows, i, n)[Rounds(j - i, |rows|) + c] == rows[c][j]
    decreases j - i
  {
    hide Rounds, Column;
    NextRound(0, |rows|);
    FullColumnLength(rows, i);
    var first, rest := Column(rows, 0, i), Columns(rows, i + 1, n);
    if i < j {
      FullColumnsEntry(rows, i + 1, m, n, j, c);
      var k := Rounds(j - (i + 1), |rows|) + c;
      NextRound(j - (i + 1), |rows|);
      assert (first + rest)[|first| + k] == rest[k];
    } else {
      FullColumn(rows, 0, i, c);
      assert (first + rest)[c] == first[c];
    }
  }

  /** The column of the large blocks. */
  lemma {:induction false} LargeColumn(rows: seq<seq<GF>>, b: nat, s: nat, small: nat, c: nat)
    requires b <= |rows| && small <= |rows|
    requires forall r: nat :: r < |rows| ==> |rows[r]| == if r < small then s else s + 1
    ensures |Column(rows, b, s)| == |rows| - if b < small then small else b
    ensures b <= c < |rows| && small <= c ==> Column(rows, b, s)[c - if b < small then small else b] == rows[c][s]
    decreases |rows| - b
  {
    if b < |rows| {
      LargeColumn(rows, b + 1, s, small, c);
    }
  }

  /** Every entry of every block is found at its place in the interleaved message. */
  lemma InterleavedEntry(data: seq<seq<GF>>, check: seq<seq<GF>>, info: EcInfo, b: nat, o: nat)
    requires Shaped(data, check, info) && b < info.Count() && o < info.DataSize(b) + info.ecCodewordsPerBlock
    ensures |Interleave(data, check, info)| == info.Total() && info.Place(b, o) < info.Total()
    ensures Interleave(data, check, info)[info.Place(b, o)] == (data[b] + check[b])[o]
  {
    hide Column, Columns, Rounds;
    var n, s, e := info.Count(), info.Short(), info.ecCodewordsPerBlock;
    PlaceInRange(info, b, o);
    FullColumns(data, 0, s, s + 1);
    FullColumns(check, 0, e, e);
    LastColumn(data, s);
    NoColumns(check, e);
    LargeColumn(data, 0, s, info.SmallCount(), b);
    if o < s {
      FullColumnsEntry(data, 0, s, s + 1, o, b);
    } else if o >= info.DataSize(b) {
      FullColumnsEntry(check, 0, e, e, o - info.DataSize(b), b);
    } else {
      var d := Columns(data, 0, s + 1);
      assert d[Rounds(s, n)..][b - info.SmallCount()] == d[Rounds(s, n) + (b - info.SmallCount())];
    }
  }

  lemma LastColumn(rows: seq<seq<GF>>, s: nat)
    ensures Columns(rows, s, s + 1) == Column(rows, 0, s)
  {
    assert Columns(rows, s, s + 1) == Column(rows, 0, s) + Columns(rows, s + 1, s + 1);
  }

  lemma NoColumns(rows: seq<seq<GF>>, n: nat)
    ensures Columns(rows, n, n) == []
  {}

  lemma {:induction false} GatherEntries(codewords: seq<GF>, info: EcInfo, b: nat, m: nat, o: nat)
    requires info.Valid() && b < info.Count() && m <= info.DataSize(b) + info.ecCodewordsPerBlock
    requires |codewords| >= info.Total()
    ensures |Gather(codewords, info, b, m)| == m
    ensures o < m ==> info.Place(b, o) < info.Total() && Gather(codewords, info, b, m)[o] == codewords[info.Place(b, o)]
  {
    if m > 0 {
      PlaceInRange(info, b, m - 1);
      GatherEntries(codewords, info, b, m - 1, o);
    }
  }

  /** Reading back the interleaved message returns the blocks, data then check codewords. */
  lemma GatherInterleaved(data: seq<seq<GF>>, check: seq<seq<GF>>, info: EcInfo, extra: seq<GF>, b: nat)
    requires Shaped(data, check, info) && b < info.Count()
    ensures |Interleave(data, check, info)| == info.Total()
    ensures Gather(Interleave(data, check, info) + extra, info, b, info.DataSize(b) + info.ecCodewordsPerBlock) ==
            data[b] + check[b]
  {
    hide Gather, Interleave;
    var m := info.DataSize(b) + info.ecCodewordsPerBlock;
    InterleavedEntry(data, check, info, b, 0);
    var sent := Interleave(data, check, info);
    GatherEntries(sent + extra, info, b, m, 0);
    forall o: nat | o < m ensures Gather(sent + extra, info, b, m)[o] == (data[b] + check[b])[o] {
      GatherEntries(sent + extra, info, b, m, o);
      InterleavedEntry(data, check, info, b, o);
    }
  }

  lemma {:induction false} NoRows(i: nat, n: nat)
    ensures Columns([], i, n) == []
    decreases n - i
  {
    if i < n {
      NoRows(i + 1, n);
    }
  }

  lemma InterleavedLength(data: seq<seq<GF>>, check: seq<seq<GF>>, info: EcInfo)
    requires Shaped(data, check, info)
    ensures |Interleave(data, check, info)| == info.Total()
  {
    hide Columns;
    if info.Count() == 0 {
      assert data == [] && check == [];
      NoRows(0, info.Short() + 1);
      NoRows(0, info.ecCodewordsPerBlock);
    } else {
      hide Interleave;
      InterleavedEntry(data, check, info, 0, 0);
    }
  }

  // ----- Correcting all blocks

  /** The rows one after the other. */
  function Flatten(rows: seq<seq<GF>>): seq<GF> {
    if |rows| == 0 then [] else Flatten(rows[..|rows| - 1]) + rows[|rows| - 1]
  }

  /** The data part of every block. */
  function DataParts(words: seq<seq<GF>>, info: EcInfo): seq<seq<GF>>
    requires info.Valid() && forall b: nat :: b < |words| ==> info.DataSize(b) <= |words[b]|
  {
    seq(|words|, b requires 0 <= b < |words| => words[b][..info.DataSize(b)])
  }

  /** Every block of the symbol is within half its check length of the block that was sent. */
  ghost predicate Recoverable(codewords: seq<GF>, data: seq<seq<GF>>, check: seq<seq<GF>>, info: EcInfo) {
    && Shaped(data, check, info) && |codewords| >= info.Total()
    && forall b: nat :: b < info.Count() ==>
                          Near(data[b] + check[b],
                               Gather(codewords, info, b, info.DataSize(b) + info.ecCodewordsPerBlock),
                               info.ecCodewordsPerBlock)
  }

  /** The number of data codewords of the first n blocks. */
  function DataTotal(info: EcInfo, n: nat): nat
    requires info.Valid()
  {
    if n == 0 then 0 else DataTotal(info, n - 1) + info.DataSize(n - 1)
  }

  lemma {:induction false} DataTotalMonotone(info: EcInfo, m: nat, n: nat)
    requires info.Valid() && m <= n
    ensures DataTotal(info, m) <= DataTotal(info, n)
  {
    if m < n {
      DataTotalMonotone(info, m, n - 1);
    }
  }

  /** words are the corrections of the first blocks. */
  ghost predicate Corrected(words: seq<seq<GF>>, dataBlocks: seq<DataBlock>, info: EcInfo) {
    && info.Valid() && |words| <= |dataBlocks|
    && (forall k: nat :: k < |words| ==> |words[k]| == info.DataSize(k) + info.ecCodewordsPerBlock)
    && (forall k: nat, c: seq<GF> :: k < |words| && Near(c, dataBlocks[k].codewords, info.ecCodewordsPerBlock) ==>
                                       words[k] == c)
  }

  ghost predicate Uncorrectable(dataBlocks: seq<DataBlock>, info: EcInfo) {
    exists b: nat :: b < |dataBlocks| && NoCodewordNear(dataBlocks[b], info)
  }

  ghost predicate NoCodewordNear(block: DataBlock, info: EcInfo) {
    forall c: seq<GF> :: !Near(c, block.codewords, info.ecCodewordsPerBlock)
  }

  lemma ExtendCorrected(words: seq<seq<GF>>, word: seq<GF>, dataBlocks: seq<DataBlock>, info: EcInfo)
    requires Corrected(words, dataBlocks, info) && |words| < |dataBlocks|
    requires |word| == info.DataSize(|words|) + info.ecCodewordsPerBlock
    requires forall c: seq<GF> :: Near(c, dataBlocks[|words|].codewords, info.ecCodewordsPerBlock) ==> word == c
    ensures Corrected(words + [word], dataBlocks, info)
  {
    hide Near;
  }

  lemma CorrectedSizes(words: seq<seq<GF>>, dataBlocks: seq<DataBlock>, info: EcInfo)
    requires Corrected(words, dataBlocks, info)
    ensures info.Valid() && |words| <= |dataBlocks| && forall k: nat :: k < |words| ==> info.DataSize(k) <= |words[k]|
  {}

  method AppendData(resultBytes: array<GF>, resultIndex: nat, word: seq<GF>, count: nat)
    requires count <= |word| && resultIndex + count <= resultBytes.Length
    modifies resultBytes
    ensures resultBytes[..resultIndex + count] == old(resultBytes[..resultIndex]) + word[..count]
  {
    for i := 0 to count
      invariant resultBytes[..resultIndex] == old(resultBytes[..resultIndex])
      invariant resultBytes[resultIndex..resultIndex + i] == word[..i]
    {
      resultBytes[resultIndex + i] := word[i];
    }
  }

  method CorrectBlock(dataBlock: DataBlock, info: EcInfo, ghost b: nat) returns (r: Option<seq<GF>>)
    requires info.Valid() && info.ecCodewordsPerBlock <= 256
    requires dataBlock.numDataCodewords == info.DataSize(b)
    requires |dataBlock.codewords| == info.DataSize(b) + info.ecCodewordsPerBlock
    ensures r.Some? ==> |r.value| == |dataBlock.codewords|
    ensures r.Some? ==> forall c: seq<GF> :: Near(c, dataBlock.codewords, info.ecCodewordsPerBlock) ==> r.value == c
    ensures r == None ==> NoCodewordNear(dataBlock, info)
  {
    hide Near, Distance, IsCodeword, LowSyndromes;
    r := Decode(dataBlock.codewords, |dataBlock.codewords| - dataBlock.numDataCodewords);
  }

  /** Corrects every block and collects the data codewords; None when a block cannot be corrected. */
  method CorrectBlocks(dataBlocks: seq<DataBlock>, info: EcInfo) returns (r: Option<seq<GF>>, ghost words: seq<seq<GF>>)
    requires info.Valid() && info.ecCodewordsPerBlock <= 256
    requires forall b: nat :: b < |dataBlocks| ==>
                                && dataBlocks[b].numDataCodewords == info.DataSize(b)
                                && |dataBlocks[b].codewords| == info.DataSize(b) + info.ecCodewordsPerBlock
    ensures r.Some? ==> |words| == |dataBlocks| && Corrected(words, dataBlocks, info)
    ensures r.Some? ==> (CorrectedSizes(words, dataBlocks, info); r.value == Flatten(DataParts(words, info)))
    ensures r == None ==> Uncorrectable(dataBlocks, info)
  {
    words := [];
    EmptyParts(info);
    EmptyCorrected(dataBlocks, info);
    hide Near, Flatten, DataParts, Corrected, NoCodewordNear;
    var totalBytes := 0;
    for b := 0 to |dataBlocks|
      invariant totalBytes == DataTotal(info, b)
    {
      totalBytes := totalBytes + dataBlocks[b].numDataCodewords;
    }
    var resultBytes := new GF[totalBytes];
    var resultIndex := 0;
    for b := 0 to |dataBlocks|
      invariant |words| == b && resultIndex == DataTotal(info, b) && Corrected(words, dataBlocks, info)
      invariant forall k: nat :: k < b ==> info.DataSize(k) <= |words[k]|
      invariant resultIndex <= totalBytes && resultBytes[..resultIndex] == Flatten(DataParts(words, info))
    {
      var dataBlock := dataBlocks[b];
      var correctedBytes := CorrectBlock(dataBlock, info, b);
      if correctedBytes == None {
        return None, words;
      }
      DataTotalMonotone(info, b + 1, |dataBlocks|);
      AppendData(resultBytes, resultIndex, correctedBytes.value, dataBlock.numDataCodewords);
      resultIndex := resultIndex + dataBlock.numDataCodewords;
      ExtendParts(words, correctedBytes.value, info);
      ExtendCorrected(words, correctedBytes.value, dataBlocks, info);
      words := words + [correctedBytes.value];
    }
    assert resultBytes[..] == resultBytes[..resultIndex];
    return Some(resultBytes[..]), words;
  }

  lemma EmptyCorrected(dataBlocks: seq<DataBlock>, info: EcInfo)
    requires info.Valid()
    ensures Corrected([], dataBlocks, info)
  {}

  lemma EmptyParts(info: EcInfo)
    requires info.Valid()
    ensures Flatten(DataParts([], info)) == []
  {}

  lemma ExtendParts(words: seq<seq<GF>>, word: seq<GF>, info: EcInfo)
    requires info.Valid() && forall b: nat :: b < |words| ==> info.DataSize(b) <= |words[b]|
    requires info.DataSize(|words|) <= |word|
    ensures Flatten(DataParts(words + [word], info)) == Flatten(DataParts(words, info)) + word[..info.DataSize(|words|)]
  {
    var all := DataParts(words + [word], info);
    assert all[..|words|] == DataParts(words, info);
  }

  /** From the codewords read off a symbol to the corrected data bytes. */
  method RecoverData(codewords: seq<GF>, info: EcInfo) returns (r: Option<seq<GF>>)
    requires info.Valid() && info.ecCodewordsPerBlock <= 256
    ensures forall data, check: seq<seq<GF>> :: Recoverable(codewords, data, check, info) ==> r == Some(Flatten(data))
  {
    hide Near, Gather, Flatten, Corrected, Uncorrectable, Recoverable;
    var blocks := GetDataBlocks(codewords, info);
    if blocks == None {
      TooFewCodewords(codewords, info);
      return None;
    }
    forall b: nat | b < info.Count()
      ensures |blocks.value[b].codewords| == info.DataSize(b) + info.ecCodewordsPerBlock
    {
      GatherEntries(codewords, info, b, info.DataSize(b) + info.ecCodewordsPerBlock, 0);
    }
    ghost var words;
    r, words := CorrectBlocks(blocks.value, info);
    if r.Some? {
      CorrectedSizes(words, blocks.value, info);
    }
    forall data, check: seq<seq<GF>> | Recoverable(codewords, data, check, info) ensures r == Some(Flatten(data)) {
      AllBlocksRecovered(codewords, data, check, info, blocks.value, words);
    }
  }

  lemma TooFewCodewords(codewords: seq<GF>, info: EcInfo)
    requires info.Valid() && |codewords| < info.Total()
    ensures forall data, check: seq<seq<GF>> :: !Recoverable(codewords, data, check, info)
  {}

  lemma AllBlocksRecovered(codewords: seq<GF>, data: seq<seq<GF>>, check: seq<seq<GF>>, info: EcInfo,
                           blocks: seq<DataBlock>, words: seq<seq<GF>>)
    requires Recoverable(codewords, data, check, info) && |blocks| == info.Count()
    requires forall b: nat :: b < info.Count() ==>
                                blocks[b].codewords ==
                                Gather(codewords, info, b, info.DataSize(b) + info.ecCodewordsPerBlock)
    ensures !Uncorrectable(blocks, info)
    ensures |words| == |blocks| && Corrected(words, blocks, info) ==>
              (CorrectedSizes(words, blocks, info); DataParts(words, info) == data)
  {
    hide Near, Gather;
    forall b: nat | b < info.Count() ensures !NoCodewordNear(blocks[b], info) {
      assert Near(data[b] + check[b], blocks[b].codewords, info.ecCodewordsPerBlock);
    }
    if |words| == |blocks| && Corrected(words, blocks, info) {
      forall b: nat | b < info.Count() ensures words[b][..info.DataSize(b)] == data[b] {
        assert words[b] == data[b] + check[b];
      }
    }
  }

  /** With at most half the check length of bad codewords in every block, a symbol is recoverable. */
  lemma FewBadCodewords(codewords: seq<GF>, data: seq<seq<GF>>, check: seq<seq<GF>>, info: EcInfo)
    requires Shaped(data, check, info) && |codewords| >= info.Total()
    requires forall b: nat :: b < info.Count() ==>
                                && info.DataSize(b) + info.ecCodewordsPerBlock <= 255
                                && IsCodeword(data[b] + check[b], info.ecCodewordsPerBlock)
    requires |Interleave(data, check, info)| == info.Total()
    requires forall b: nat :: b < info.Count() ==>
                                2 * BadCodewords(Interleave(data, check, info), codewords, info, b) <=
                                info.ecCodewordsPerBlock
    ensures Recoverable(codewords, data, check, info)
  {
    hide Gather, Interleave, IsCodeword, Distance;
    forall b: nat | b < info.Count()
      ensures Near(data[b] + check[b],
                   Gather(codewords, info, b, info.DataSize(b) + info.ecCodewordsPerBlock),
                   info.ecCodewordsPerBlock)
    {
      GatherInterleaved(data, check, info, [], b);
      assert Interleave(data, check, info) + [] == Interleave(data, check, info);
      GatherEntries(codewords, info, b, info.DataSize(b) + info.ecCodewordsPerBlock, 0);
      var bad := BadCodewords(Interleave(data, check, info), codewords, info, b);
    }
  }

  /** The number of entries of block b that differ between two symbols. */
  function BadCodewords(sent: seq<GF>, received: seq<GF>, info: EcInfo, b: nat): nat
    requires info.Valid() && b < info.Count() && |sent| >= info.Total() && |received| >= info.Total()
  {
    var m := info.DataSize(b) + info.ecCodewordsPerBlock;
    GatherEntries(sent, info, b, m, 0);
    GatherEntries(received, info, b, m, 0);
    Distance(Gather(sent, info, b, m), Gather(received, info, b, m))
  }
}
