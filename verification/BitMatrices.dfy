/** The module grid of a symbol and the function patterns laid over it. */
module BitMatrices {

  type Point = (int, int)

  function Index(x: nat, y: nat, width: nat): nat {
    y * width + x
  }

  lemma {:induction false} RowMonotone(a: nat, b: nat, width: nat)
    requires a <= b
    ensures a * width <= b * width
    decreases b
  {
    if a < b {
      RowMonotone(a, b - 1, width);
      assert b * width == (b - 1) * width + width;
    }
  }

  lemma RowsDiffer(y: nat, y': nat, width: nat)
    requires y < y'
    ensures y * width + width <= y' * width
  {
    RowMonotone(y + 1, y', width);
    assert (y + 1) * width == y * width + width;
  }

  lemma IndexInRange(x: nat, y: nat, width: nat, height: nat)
    requires x < width && y < height
    ensures Index(x, y, width) < width * height
  {
    RowsDiffer(y, height, width);
  }

  lemma IndexInjective(x: nat, y: nat, x': nat, y': nat, width: nat)
    requires x < width && x' < width && Index(x, y, width) == Index(x', y', width)
    ensures x == x' && y == y'
  {
    if y < y' {
      RowsDiffer(y, y', width);
    } else if y' < y {
      RowsDiffer(y', y, width);
    }
  }

  class BitMatrix {
    const width: nat
    const height: nat
    const data: array<bool>

    ghost predicate Valid() {
      data.Length == width * height
    }

    constructor CreateEmpty(width: nat, height: nat)
      ensures Valid() && fresh(data) && this.width == width && this.height == height
      ensures forall x, y :: !At(x, y)
    {
      this.width := width;
      this.height := height;
      data := new bool[width * height](_ => false);
      new;
      forall x, y ensures !At(x, y) {
        if 0 <= x < width && 0 <= y < height {
          IndexInRange(x, y, width, height);
        }
      }
    }

    predicate InGrid(x: int, y: int) {
      0 <= x < width && 0 <= y < height
    }

    /** The module at column x and row y; outside the grid all modules are light. */
    predicate At(x: int, y: int)
      requires Valid()
      reads data
    {
      InGrid(x, y) && (IndexInRange(x, y, width, height); data[Index(x, y, width)])
    }

    method Set(x: nat, y: nat, v: bool)
      requires Valid() && InGrid(x, y)
      modifies data
      ensures forall a, b :: At(a, b) == if a == x && b == y then v else old(At(a, b))
    {
      hide Index;
      IndexInRange(x, y, width, height);
      data[Index(x, y, width)] := v;
      forall a, b ensures At(a, b) == if a == x && b == y then v else old(At(a, b)) {
        if InGrid(a, b) {
          IndexInRange(a, b, width, height);
          if Index(a, b, width) == Index(x, y, width) {
            IndexInjective(a, b, x, y, width);
          }
        }
      }
    }

    method SetRegion(left: nat, top: nat, w: nat, h: nat, v: bool)
      requires Valid() && left + w <= width && top + h <= height
      modifies data
      ensures forall a, b :: At(a, b) == if left <= a < left + w && top <= b < top + h then v else old(At(a, b))
    {
      hide Index;
      for y := top to top + h
        invariant forall a, b :: At(a, b) == if left <= a < left + w && top <= b < y then v else old(At(a, b))
      {
        for x := left to left + w
          invariant forall a, b ::
              At(a, b) == if (left <= a < left + w && top <= b < y) || (left <= a < x && b == y) then v
              else old(At(a, b))
        {
          Set(x, y, v);
        }
      }
    }
  }

  // ----- Function patterns

  datatype Version = Version(versionNumber: nat, alignmentPatternCenters: seq<nat>) {
    function Dimension(): nat {
      17 + 4 * versionNumber
    }

    /** Versions 1 to 40, with alignment patterns inside the symbol. */
    ghost predicate Valid() {
      && 1 <= versionNumber <= 40
      && forall i :: 0 <= i < |alignmentPatternCenters| ==> 2 <= alignmentPatternCenters[i] <= Dimension() - 3
    }
  }

  predicate InRegion(x: int, y: int, left: int, top: int, w: int, h: int) {
    left <= x < left + w && top <= y < top + h
  }

  /** No alignment pattern is drawn over the three finder patterns. */
  predicate OnFinder(cx: int, cy: int, dimension: int) {
    (cx == 6 && cy == 6) || (cx == 6 && cy == dimension - 7) || (cx == dimension - 7 && cy == 6)
  }

  /** The 5 by 5 pattern around the i-th and j-th center coordinates. */
  predicate InPattern(version: Version, i: nat, j: nat, x: int, y: int)
    requires i < |version.alignmentPatternCenters| && j < |version.alignmentPatternCenters|
  {
    var cx: int, cy: int := version.alignmentPatternCenters[i], version.alignmentPatternCenters[j];
    !OnFinder(cx, cy, version.Dimension()) && InRegion(x, y, cx - 2, cy - 2, 5, 5)
  }

  /** In one of the patterns of the first n center columns, or of column n and the first m rows. */
  ghost predicate InAlignmentPattern(version: Version, x: int, y: int, n: nat, m: nat) {
    var count := |version.alignmentPatternCenters|;
    exists i: nat, j: nat :: i < count && j < count && (i < n || (i == n && j < m)) && InPattern(version, i, j, x, y)
  }

  lemma NextPattern(version: Version, n: nat, m: nat)
    requires n < |version.alignmentPatternCenters| && m < |version.alignmentPatternCenters|
    ensures forall x, y :: InAlignmentPattern(version, x, y, n, m + 1) <==>
                           (InAlignmentPattern(version, x, y, n, m) || InPattern(version, n, m, x, y))
  {
    hide InPattern;
  }

  lemma NextColumn(version: Version, n: nat)
    ensures forall x, y :: InAlignmentPattern(version, x, y, n, |version.alignmentPatternCenters|) <==>
                           InAlignmentPattern(version, x, y, n + 1, 0)
    ensures forall x, y :: !InAlignmentPattern(version, x, y, 0, 0)
  {
    hide InPattern;
  }

  ghost predicate InFinder(version: Version, x: int, y: int) {
    var dimension := version.Dimension();
    || InRegion(x, y, 0, 0, 9, 9)
    || InRegion(x, y, dimension - 8, 0, 8, 9)
    || InRegion(x, y, 0, dimension - 8, 9, 8)
  }

  ghost predicate InTiming(version: Version, x: int, y: int) {
    var dimension := version.Dimension();
    InRegion(x, y, 6, 9, 1, dimension - 17) || InRegion(x, y, 9, 6, dimension - 17, 1)
  }

  ghost predicate InVersionInfo(version: Version, x: int, y: int) {
    var dimension := version.Dimension();
    version.versionNumber > 6 &&
    (InRegion(x, y, dimension - 11, 0, 3, 6) || InRegion(x, y, 0, dimension - 11, 6, 3))
  }

  /** The modules that carry no data: finder, separator, format, alignment, timing and version patterns. */
  ghost predicate IsFunction(version: Version, x: int, y: int) {
    || InFinder(version, x, y)
    || InAlignmentPattern(version, x, y, |version.alignmentPatternCenters|, 0)
    || InTiming(version, x, y)
    || InVersionInfo(version, x, y)
  }

  method AddAlignmentPatterns(version: Version, matrix: BitMatrix)
    requires version.Valid() && matrix.Valid() && matrix.width == matrix.height == version.Dimension()
    modifies matrix.data
    ensures forall x, y :: matrix.At(x, y) <==>
                           old(matrix.At(x, y)) ||
                           InAlignmentPattern(version, x, y, |version.alignmentPatternCenters|, 0)
  {
    hide Index, InAlignmentPattern;
    var centers, dimension := version.alignmentPatternCenters, version.Dimension();
    NextColumn(version, 0);
    for i := 0 to |centers|
      invariant forall x, y :: matrix.At(x, y) <==> (old(matrix.At(x, y)) || InAlignmentPattern(version, x, y, i, 0))
    {
      for j := 0 to |centers|
        invariant forall x, y :: matrix.At(x, y) <==> (old(matrix.At(x, y)) || InAlignmentPattern(version, x, y, i, j))
      {
        if !OnFinder(centers[i], centers[j], dimension) {
          matrix.SetRegion(centers[i] - 2, centers[j] - 2, 5, 5, true);
        }
        NextPattern(version, i, j);
      }
      NextColumn(version, i);
    }
  }

  method BuildFunctionPatternMask(version: Version) returns (matrix: BitMatrix)
    requires version.Valid()
    ensures fresh(matrix) && fresh(matrix.data)
    ensures matrix.Valid() && matrix.width == matrix.height == version.Dimension()
    ensures forall x, y :: matrix.At(x, y) <==> IsFunction(version, x, y)
  {
    hide Index, InAlignmentPattern;
    var dimension := version.Dimension();
    matrix := new BitMatrix.CreateEmpty(dimension, dimension);
    matrix.SetRegion(0, 0, 9, 9, true);
    matrix.SetRegion(dimension - 8, 0, 8, 9, true);
    matrix.SetRegion(0, dimension - 8, 9, 8, true);
    AddAlignmentPatterns(version, matrix);
    matrix.SetRegion(6, 9, 1, dimension - 17, true);
    matrix.SetRegion(9, 6, dimension - 17, 1, true);
    if version.versionNumber > 6 {
      matrix.SetRegion(dimension - 11, 0, 3, 6, true);
      matrix.SetRegion(0, dimension - 11, 6, 3, true);
    }
  }
}
