/** Reading the codewords off the grid in two-module columns, right to left, alternately upwards
    and downwards (section 7.7 of ISO/IEC 18004:2015). */
module CodewordReader {
  import opened BitMatrices
  import opened BitWords

  /** The two-module column whose right half is column c; the order in which it is visited. */
  function ColumnPair(dimension: nat, c: int, up: bool): seq<Point> {
    seq(2 * dimension, k requires 0 <= k < 2 * dimension => (c - k % 2, if up then dimension - 1 - k / 2 else k / 2))
  }

  /** All visited modules from column c leftwards. Column 6, the vertical timing pattern, is skipped. */
  function Walk(dimension: nat, column: int, up: bool): seq<Point>
    decreases column
  {
    if column <= 0 then []
    else
      var c := if column == 6 then 5 else column;
      ColumnPair(dimension, c, up) + Walk(dimension, c - 2, !up)
  }

  predicate DataMask(mask: nat, x: int, y: int)
    requires mask < 8
  {
    match mask
    case 0 => (y + x) % 2 == 0
    case 1 => y % 2 == 0
    case 2 => x % 3 == 0
    case 3 => (y + x) % 3 == 0
    case 4 => (y / 2 + x / 3) % 2 == 0
    case 5 => x * y % 2 + x * y % 3 == 0
    case 6 => (y * x % 2 + y * x % 3) % 2 == 0
    case _ => ((y + x) % 2 + y * x % 3) % 2 == 0
  }

  // ----- Every module outside column 6 is visited exactly once

  /** Columns from which the walk reaches column 0. */
  predicate OnTrack(column: int) {
    column == -1 || (0 < column <= 5 && column % 2 == 1) || (column >= 6 && column % 2 == 0)
  }

  lemma PairMember(dimension: nat, c: int, up: bool, p: Point)
    ensures p in ColumnPair(dimension, c, up) <==> (p.0 == c || p.0 == c - 1) && 0 <= p.1 < dimension
  {
    var pair := ColumnPair(dimension, c, up);
    if (p.0 == c || p.0 == c - 1) && 0 <= p.1 < dimension {
      var row := if up then dimension - 1 - p.1 else p.1;
      var k := 2 * row + (c - p.0);
      assert k / 2 == row && k % 2 == c - p.0;
      assert pair[k] == p;
    }
  }

  lemma {:induction false} WalkMember(dimension: nat, column: int, up: bool, p: Point)
    requires OnTrack(column)
    ensures p in Walk(dimension, column, up) <==> 0 <= p.0 <= column && p.0 != 6 && 0 <= p.1 < dimension
    decreases column
  {
    hide ColumnPair;
    if column > 0 {
      var c := if column == 6 then 5 else column;
      PairMember(dimension, c, up, p);
      WalkMember(dimension, c - 2, !up, p);
    }
  }

  ghost predicate NoRepeats(w: seq<Point>) {
    forall i, j :: 0 <= i < j < |w| ==> w[i] != w[j]
  }

  lemma PairNoRepeats(dimension: nat, c: int, up: bool)
    ensures NoRepeats(ColumnPair(dimension, c, up))
  {
    var pair := ColumnPair(dimension, c, up);
    forall i, j | 0 <= i < j < |pair| ensures pair[i] != pair[j] {
      if i % 2 == j % 2 {
        assert i / 2 < j / 2;
      }
    }
  }

  lemma {:induction false} WalkNoRepeats(dimension: nat, column: int, up: bool)
    requires OnTrack(column)
    ensures NoRepeats(Walk(dimension, column, up))
    decreases column
  {
    hide ColumnPair, Walk;
    WalkUnfold(dimension, column, up);
    if column > 0 {
      var c := if column == 6 then 5 else column;
      var first, rest := ColumnPair(dimension, c, up), Walk(dimension, c - 2, !up);
      PairNoRepeats(dimension, c, up);
      WalkNoRepeats(dimension, c - 2, !up);
      forall i, j | 0 <= i < |first| && 0 <= j < |rest| ensures first[i] != rest[j] {
        PairMember(dimension, c, up, first[i]);
        WalkMember(dimension, c - 2, !up, rest[j]);
      }
    }
  }

  lemma WalkUnfold(dimension: nat, column: int, up: bool)
    ensures column <= 0 ==> Walk(dimension, column, up) == []
    ensures column > 0 ==>
              var c := if column == 6 then 5 else column;
              Walk(dimension, column, up) == ColumnPair(dimension, c, up) + Walk(dimension, c - 2, !up)
  {}

  /** The walk of a whole symbol. */
  function FullWalk(dimension: nat): seq<Point> {
    Walk(dimension, dimension - 1, true)
  }

  /** Column 6 holds nothing but function patterns. */
  lemma TimingColumnIsFunction(version: Version, y: int)
    requires version.Valid() && 0 <= y < version.Dimension()
    ensures IsFunction(version, 6, y)
  {
    hide InAlignmentPattern, InVersionInfo;
  }

  /** The data modules of a walk, in order. */
  ghost function DataModules(w: seq<Point>, version: Version): seq<Point> {
    if |w| == 0 then []
    else DataModules(w[..|w| - 1], version) +
         if IsFunction(version, w[|w| - 1].0, w[|w| - 1].1) then [] else [w[|w| - 1]]
  }

  lemma {:induction false} DataModulesMember(w: seq<Point>, version: Version, p: Point)
    ensures p in DataModules(w, version) <==> p in w && !IsFunction(version, p.0, p.1)
  {
    hide IsFunction;
    if |w| > 0 {
      DataModulesMember(w[..|w| - 1], version, p);
    }
  }

  lemma {:induction false} DataModulesNoRepeats(w: seq<Point>, version: Version)
    requires NoRepeats(w)
    ensures NoRepeats(DataModules(w, version))
  {
    hide IsFunction;
    if |w| > 0 {
      DataModulesNoRepeats(w[..|w| - 1], version);
      DataModulesMember(w[..|w| - 1], version, w[|w| - 1]);
    }
  }

  /** The walk passes every data module of the symbol exactly once, and nothing else. */
  lemma EveryDataModuleOnce(version: Version, p: Point)
    requires version.Valid()
    ensures NoRepeats(DataModules(FullWalk(version.Dimension()), version))
    ensures p in DataModules(FullWalk(version.Dimension()), version) <==>
            0 <= p.0 < version.Dimension() && 0 <= p.1 < version.Dimension() && !IsFunction(version, p.0, p.1)
  {
    hide IsFunction, DataModules;
    var dimension := version.Dimension();
    WalkMember(dimension, dimension - 1, true, p);
    WalkNoRepeats(dimension, dimension - 1, true);
    DataModulesNoRepeats(FullWalk(dimension), version);
    DataModulesMember(FullWalk(dimension), version, p);
    if p.0 == 6 && 0 <= p.1 < dimension {
      TimingColumnIsFunction(version, p.1);
    }
  }

  // ----- Bits to codewords

  /** Whole bytes of eight bits; up to seven bits at the end are dropped. */
  function Pack(bits: seq<bool>): (codewords: seq<nat>)
    ensures |codewords| == |bits| / 8
  {
    seq(|bits| / 8, k requires 0 <= k < |bits| / 8 => BitsValue(bits[8 * k..8 * k + 8]))
  }

  /** The bits read at the given modules, with the data mask undone. */
  ghost function ReadModules(points: seq<Point>, dark: iset<Point>, mask: nat): seq<bool>
    requires mask < 8
  {
    seq(|points|, k requires 0 <= k < |points| => (points[k] in dark) != DataMask(mask, points[k].0, points[k].1))
  }

  ghost function Dark(matrix: BitMatrix): iset<Point>
    requires matrix.Valid()
    reads matrix.data
  {
    iset p: Point | matrix.At(p.0, p.1)
  }

  /** The bits not yet part of a whole byte. */
  function Pending(bits: seq<bool>): seq<bool> {
    bits[8 * (|bits| / 8)..]
  }

  lemma PackNext(bits: seq<bool>, bit: bool)
    ensures BitsValue(Pending(bits) + [bit]) == 2 * BitsValue(Pending(bits)) + if bit then 1 else 0
    ensures |Pending(bits)| == |bits| % 8
    ensures |bits| % 8 < 7 ==> Pack(bits + [bit]) == Pack(bits) && Pending(bits + [bit]) == Pending(bits) + [bit]
    ensures |bits| % 8 == 7 ==>
              Pack(bits + [bit]) == Pack(bits) + [BitsValue(Pending(bits) + [bit])] && Pending(bits + [bit]) == []
  {
    hide BitsValue;
    var more, n := bits + [bit], |bits| / 8;
    assert (Pending(bits) + [bit])[..|Pending(bits)|] == Pending(bits);
    PushValue(Pending(bits), bit);
    forall k: nat | k < n ensures more[8 * k..8 * k + 8] == bits[8 * k..8 * k + 8] {}
    if |bits| % 8 == 7 {
      assert more[8 * n..8 * n + 8] == Pending(bits) + [bit];
    }
  }

  lemma NextModule(w: seq<Point>, k: nat, version: Version, dark: iset<Point>, mask: nat)
    requires k < |w| && mask < 8
    ensures var p, points := w[k], DataModules(w[..k], version);
            ReadModules(DataModules(w[..k + 1], version), dark, mask) ==
            if IsFunction(version, p.0, p.1) then ReadModules(points, dark, mask)
            else ReadModules(points, dark, mask) + [(p in dark) != DataMask(mask, p.0, p.1)]
  {
    hide IsFunction, DataMask;
    assert w[..k + 1][..k] == w[..k];
    assert DataModules(w[..k], version) + [] == DataModules(w[..k], version);
  }

  /** The walk from position k on is that of the columns from c leftwards. */
  ghost predicate AtColumn(w: seq<Point>, k: nat, dimension: nat, column: int, up: bool) {
    k <= |w| && w[k..] == Walk(dimension, column, up)
  }

  lemma ColumnEntries(w: seq<Point>, k: nat, dimension: nat, column: int, up: bool)
    requires AtColumn(w, k, dimension, column, up) && column > 0
    ensures var c := if column == 6 then 5 else column;
            && AtColumn(w, k + 2 * dimension, dimension, c - 2, !up)
            && k + 2 * dimension <= |w| && w[k..k + 2 * dimension] == ColumnPair(dimension, c, up)
  {
    hide Walk;
    WalkUnfold(dimension, column, up);
    assert w[k + 2 * dimension..] == w[k..][2 * dimension..];
    assert w[k..k + 2 * dimension] == w[k..][..2 * dimension];
  }

  lemma ColumnEntry(w: seq<Point>, k: nat, dimension: nat, c: int, up: bool, i: nat, offset: nat)
    requires k + 2 * dimension <= |w| && w[k..k + 2 * dimension] == ColumnPair(dimension, c, up)
    requires i < dimension && offset < 2
    ensures w[k + 2 * i + offset] == (c - offset, if up then dimension - 1 - i else i)
  {
    assert w[k..k + 2 * dimension][2 * i + offset] == w[k + 2 * i + offset];
    assert (2 * i + offset) / 2 == i && (2 * i + offset) % 2 == offset;
  }

  /** What has been read after the first k modules of the walk. */
  ghost predicate HasRead(codewords: seq<nat>, currentByte: nat, bitsRead: nat, w: seq<Point>, k: nat,
                          version: Version, dark: iset<Point>, mask: nat)
    requires mask < 8 && k <= |w|
  {
    var bits := ReadModules(DataModules(w[..k], version), dark, mask);
    codewords == Pack(bits) && currentByte == BitsValue(Pending(bits)) && bitsRead == |bits| % 8
  }

  method ReadModule(matrix: BitMatrix, functionPatternMask: BitMatrix, mask: nat, x: int, y: int,
                    codewords: seq<nat>, currentByte: nat, bitsRead: nat, ghost version: Version,
                    ghost w: seq<Point>, ghost k: nat)
    returns (codewords': seq<nat>, currentByte': nat, bitsRead': nat)
    requires matrix.Valid() && functionPatternMask.Valid() && mask < 8
    requires forall a, b :: functionPatternMask.At(a, b) <==> IsFunction(version, a, b)
    requires k < |w| && w[k] == (x, y) && HasRead(codewords, currentByte, bitsRead, w, k, version, Dark(matrix), mask)
    ensures HasRead(codewords', currentByte', bitsRead', w, k + 1, version, Dark(matrix), mask)
  {
    hide IsFunction, DataMask, DataModules, ReadModules, Pack, BitsValue, Pending;
    codewords', currentByte', bitsRead' := codewords, currentByte, bitsRead;
    NextModule(w, k, version, Dark(matrix), mask);
    if !functionPatternMask.At(x, y) {
      ghost var bits := ReadModules(DataModules(w[..k], version), Dark(matrix), mask);
      bitsRead' := bitsRead + 1;
      var bit := matrix.At(x, y);
      if DataMask(mask, x, y) {
        bit := !bit;
      }
      PackNext(bits, bit);
      NoPending();
      currentByte' := 2 * currentByte + if bit then 1 else 0;
      if bitsRead' == 8 {
        codewords' := codewords + [currentByte'];
        bitsRead' := 0;
        currentByte' := 0;
      }
    }
  }

  lemma NoPending()
    ensures BitsValue([]) == 0
  {}

  /** The modules of a two-module column, row by row. */
  method ReadColumnPair(matrix: BitMatrix, functionPatternMask: BitMatrix, mask: nat, columnIndex: int, readingUp: bool,
                        codewords: seq<nat>, currentByte: nat, bitsRead: nat, ghost version: Version,
                        ghost w: seq<Point>, ghost k: nat)
    returns (codewords': seq<nat>, currentByte': nat, bitsRead': nat)
    requires matrix.Valid() && functionPatternMask.Valid() && mask < 8
    requires forall a, b :: functionPatternMask.At(a, b) <==> IsFunction(version, a, b)
    requires k + 2 * matrix.height <= |w| &&
             w[k..k + 2 * matrix.height] == ColumnPair(matrix.height, columnIndex, readingUp)
    requires HasRead(codewords, currentByte, bitsRead, w, k, version, Dark(matrix), mask)
    ensures HasRead(codewords', currentByte', bitsRead', w, k + 2 * matrix.height, version, Dark(matrix), mask)
  {
    hide IsFunction, DataMask, DataModules, ReadModules, Pack, HasRead, ColumnPair;
    codewords', currentByte', bitsRead' := codewords, currentByte, bitsRead;
    for i := 0 to matrix.height
      invariant HasRead(codewords', currentByte', bitsRead', w, k + 2 * i, version, Dark(matrix), mask)
    {
      var y := if readingUp then matrix.height - 1 - i else i;
      for columnOffset := 0 to 2
        invariant HasRead(codewords', currentByte', bitsRead', w, k + 2 * i + columnOffset, version, Dark(matrix), mask)
      {
        var x := columnIndex - columnOffset;
        ColumnEntry(w, k, matrix.height, columnIndex, readingUp, i, columnOffset);
        codewords', currentByte', bitsRead' :=
          ReadModule(matrix, functionPatternMask, mask, x, y, codewords', currentByte', bitsRead', version, w,
                     k + 2 * i + columnOffset);
      }
    }
  }

  /** Reads all codewords: the bits of the data modules in walk order, unmasked, eight at a time. */
  method ReadCodewords(matrix: BitMatrix, version: Version, mask: nat) returns (codewords: seq<nat>)
    requires matrix.Valid() && version.Valid() && mask < 8
    ensures codewords == Pack(ReadModules(DataModules(FullWalk(matrix.height), version), Dark(matrix), mask))
  {
    hide *;
    var dimension: int := matrix.height;
    var functionPatternMask := BuildFunctionPatternMask(version);
    codewords := [];
    var currentByte: nat, bitsRead: nat := 0, 0;
    var readingUp := true;
    ghost var w := FullWalk(dimension);
    ghost var k: nat := 0;
    NothingRead(w, version, Dark(matrix), mask, dimension);
    var columnIndex: int := dimension - 1;
    while columnIndex > 0
      invariant forall a, b :: functionPatternMask.At(a, b) <==> IsFunction(version, a, b)
      invariant k <= |w| && AtColumn(w, k, dimension, columnIndex, readingUp)
      invariant HasRead(codewords, currentByte, bitsRead, w, k, version, Dark(matrix), mask)
    {
      ColumnEntries(w, k, dimension, columnIndex, readingUp);
      if columnIndex == 6 {
        columnIndex := columnIndex - 1;
      }
      codewords, currentByte, bitsRead :=
        ReadColumnPair(matrix, functionPatternMask, mask, columnIndex, readingUp, codewords, currentByte, bitsRead,
                       version, w, k);
      k := k + 2 * dimension;
      readingUp := !readingUp;
      columnIndex := columnIndex - 2;
    }
    AllRead(w, k, dimension, columnIndex, readingUp, codewords, currentByte, bitsRead, version, Dark(matrix), mask);
  }

  lemma NothingRead(w: seq<Point>, version: Version, dark: iset<Point>, mask: nat, dimension: nat)
    requires mask < 8 && w == FullWalk(dimension)
    ensures AtColumn(w, 0, dimension, dimension - 1, true) && HasRead([], 0, 0, w, 0, version, dark, mask)
  {}

  lemma AllRead(w: seq<Point>, k: nat, dimension: nat, column: int, up: bool, codewords: seq<nat>, currentByte: nat,
                bitsRead: nat,
                version: Version, dark: iset<Point>, mask: nat)
    requires mask < 8 && k <= |w| && AtColumn(w, k, dimension, column, up) && column <= 0
    requires HasRead(codewords, currentByte, bitsRead, w, k, version, dark, mask)
    ensures codewords == Pack(ReadModules(DataModules(w, version), dark, mask))
  {
    hide IsFunction, DataMask, DataModules, ReadModules, Pack;
    assert w[..k] == w;
  }

  // ----- Reading back a placed symbol

  /** The dark modules after placing the bits at the data modules and applying the mask. */
  ghost function Place(points: seq<Point>, bits: seq<bool>, mask: nat): iset<Point>
    requires mask < 8
  {
    iset p: Point | exists k :: 0 <= k < |points| && k < |bits| && points[k] == p && bits[k] != DataMask(mask, p.0, p.1)
  }

  /** In every symbol, for every mask, the bits placed along the walk are read back in order. */
  lemma PlacedBitsAreReadBack(version: Version, bits: seq<bool>, mask: nat)
    requires version.Valid() && mask < 8
    requires |bits| == |DataModules(FullWalk(version.Dimension()), version)|
    ensures var points := DataModules(FullWalk(version.Dimension()), version);
            ReadModules(points, Place(points, bits, mask), mask) == bits
  {
    hide DataMask, IsFunction, DataModules;
    EveryDataModuleOnce(version, (0, 0));
    var points := DataModules(FullWalk(version.Dimension()), version);
    var dark := Place(points, bits, mask);
    forall k | 0 <= k < |bits| ensures ReadModules(points, dark, mask)[k] == bits[k] {
      if bits[k] == DataMask(mask, points[k].0, points[k].1) {
        assert points[k] !in dark;
      }
    }
  }
}
