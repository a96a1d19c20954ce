/** Which modules of a symbol carry no data, stated by distances from the finder and alignment centers
    and by the places of the format and version words, and how many modules are left for data
    (sections 6.3 and 7.7 of ISO/IEC 18004:2015). */
module FunctionModules {
  import opened BitMatrices
  import opened BitWords
  import opened CodewordReader
  import opened SymbolInformation

  // ----- Which modules

  /** Within so many rows and columns of a center. */
  predicate Within(x: int, y: int, cx: int, cy: int, distance: nat) {
    cx - distance <= x <= cx + distance && cy - distance <= y <= cy + distance
  }

  /** Near a finder center: the pattern itself and its separator. */
  predicate NearFinder(d: int, x: int, y: int) {
    Within(x, y, 3, 3, 4) || Within(x, y, d - 4, 3, 4) || Within(x, y, 3, d - 4, 4)
  }

  /** Near an alignment center: those of all pairs of coordinates but the three next to the finders. */
  ghost predicate NearAlignment(version: Version, x: int, y: int) {
    exists cx <- version.alignmentPatternCenters, cy <- version.alignmentPatternCenters ::
      !BesideFinder(version.Dimension(), cx, cy) && Within(x, y, cx, cy, 2)
  }

  predicate BesideFinder(d: int, cx: int, cy: int) {
    (cx, cy) in {(6, 6), (6, d - 7), (d - 7, 6)}
  }

  /** One of the places of a format or version word, or the one module beside them that is always dark. */
  predicate HoldsInformation(version: Version, p: Point) {
    var d: int := version.Dimension();
    || p in TOP_LEFT_FORMAT || p in OtherFormat(d) || p == (8, d - 8)
    || (version.versionNumber >= 7 && (p in TopRightVersion(d) || p in BottomLeftVersion(d)))
  }

  lemma FormatPlaces(d: int, x: int, y: int)
    ensures (x, y) in TOP_LEFT_FORMAT <==> (y == 8 && 0 <= x <= 8 && x != 6) || (x == 8 && 0 <= y <= 8 && y != 6)
    ensures (x, y) in OtherFormat(d) <==> (x == 8 && d - 7 <= y < d) || (y == 8 && d - 8 <= x < d)
  {
    if x == 8 && d - 7 <= y < d {
      assert OtherFormat(d)[d - 1 - y] == (x, y);
    }
    if y == 8 && d - 8 <= x < d {
      assert OtherFormat(d)[x - (d - 8) + 7] == (x, y);
    }
    if y == 8 && 0 <= x <= 8 && x != 6 {
      assert TOP_LEFT_FORMAT[if x < 6 then x else x - 1] == (x, y);
    }
    if x == 8 && 0 <= y <= 7 && y != 6 {
      assert TOP_LEFT_FORMAT[if y == 7 then 8 else 14 - y] == (x, y);
    }
  }

  lemma VersionPlaces(d: int, x: int, y: int)
    ensures (x, y) in TopRightVersion(d) <==> d - 11 <= x <= d - 9 && 0 <= y <= 5
    ensures (x, y) in BottomLeftVersion(d) <==> d - 11 <= y <= d - 9 && 0 <= x <= 5
  {
    if d - 11 <= x <= d - 9 && 0 <= y <= 5 {
      var k := 3 * (5 - y) + (d - 9 - x);
      assert k / 3 == 5 - y && k % 3 == d - 9 - x;
      assert TopRightVersion(d)[k] == (x, y);
    }
    if d - 11 <= y <= d - 9 && 0 <= x <= 5 {
      var k := 3 * (5 - x) + (d - 9 - y);
      assert k / 3 == 5 - x && k % 3 == d - 9 - y;
      assert BottomLeftVersion(d)[k] == (x, y);
    }
  }

  lemma PatternPlace(version: Version, i: nat, j: nat, x: int, y: int)
    requires i < |version.alignmentPatternCenters| && j < |version.alignmentPatternCenters|
    ensures
      var cx, cy := version.alignmentPatternCenters[i], version.alignmentPatternCenters[j];
      InPattern(version, i, j, x, y) <==> !BesideFinder(version.Dimension(), cx, cy) && Within(x, y, cx, cy, 2)
  {}

  lemma AlignmentPlaces(version: Version, x: int, y: int)
    ensures InAlignmentPattern(version, x, y, |version.alignmentPatternCenters|, 0) <==> NearAlignment(version, x, y)
  {
    hide InPattern, BesideFinder, Within;
    var centers := version.alignmentPatternCenters;
    if i: nat, j: nat :| i < |centers| && j < |centers| && InPattern(version, i, j, x, y) {
      PatternPlace(version, i, j, x, y);
      assert centers[i] in centers && centers[j] in centers;
    }
    if NearAlignment(version, x, y) {
      var cx, cy :| cx in centers && cy in centers && !BesideFinder(version.Dimension(), cx, cy) &&
                    Within(x, y, cx, cy, 2);
      var i: nat :| i < |centers| && centers[i] == cx;
      var j: nat :| j < |centers| && centers[j] == cy;
      PatternPlace(version, i, j, x, y);
    }
  }

  /** The modules that carry no data are those near a finder or alignment center, in the sixth row and
      column, and at the places of the format and version words. */
  lemma FunctionModuleIff(version: Version, x: int, y: int)
    requires version.Valid() && 0 <= x < version.Dimension() && 0 <= y < version.Dimension()
    ensures IsFunction(version, x, y) <==>
            NearFinder(version.Dimension(), x, y) || NearAlignment(version, x, y) || x == 6 || y == 6 ||
            HoldsInformation(version, (x, y))
  {
    hide InAlignmentPattern, NearAlignment, TopRightVersion, BottomLeftVersion, OtherFormat;
    var d: int := version.Dimension();
    FormatPlaces(d, x, y);
    VersionPlaces(d, x, y);
    AlignmentPlaces(version, x, y);
  }

  // ----- How many

  ghost function Rect(left: int, top: int, w: nat, h: nat): set<Point> {
    set x, y | left <= x < left + w && top <= y < top + h :: (x, y)
  }

  lemma {:induction false} ColumnSize(left: int, top: int, h: nat)
    ensures |Rect(left, top, 1, h)| == h
  {
    if h > 0 {
      ColumnSize(left, top, h - 1);
      assert Rect(left, top, 1, h) == Rect(left, top, 1, h - 1) + {(left, top + h - 1)};
    } else {
      assert Rect(left, top, 1, h) == {};
    }
  }

  lemma {:induction false} RectSize(left: int, top: int, w: nat, h: nat)
    ensures |Rect(left, top, w, h)| == w * h
    decreases w
  {
    if w > 0 {
      RectSize(left, top, w - 1, h);
      ColumnSize(left + w - 1, top, h);
      var before, last := Rect(left, top, w - 1, h), Rect(left + w - 1, top, 1, h);
      assert Rect(left, top, w, h) == before + last && before !! last;
      assert w * h == (w - 1) * h + h;
    } else {
      assert Rect(left, top, w, h) == {};
    }
  }

  lemma {:induction false} SetOfSeq(s: seq<Point>)
    requires NoRepeats(s)
    ensures |set p | p in s| == |s|
  {
    if s != [] {
      var n := |s| - 1;
      SetOfSeq(s[..n]);
      assert (set p | p in s) == (set p | p in s[..n]) + {s[n]};
    }
  }

  /** The coordinates of the version tables: first and last 6 from the edges, the others at least 12
      apart. */
  ghost predicate Standard(version: Version) {
    var c, d: int := version.alignmentPatternCenters, version.Dimension();
    && version.Valid()
    && if version.versionNumber == 1 then c == []
       else
         && |c| >= 2 && c[0] == 6 && c[|c| - 1] == d - 7
         && forall i, j :: 0 <= i < j < |c| ==> c[i] + 12 <= c[j]
  }

  /** The modules of one alignment pattern that are not on a timing line. */
  ghost function PatternSet(version: Version, i: nat, j: nat): set<Point>
    requires i < |version.alignmentPatternCenters| && j < |version.alignmentPatternCenters|
  {
    var cx: int, cy: int := version.alignmentPatternCenters[i], version.alignmentPatternCenters[j];
    if BesideFinder(version.Dimension(), cx, cy) then {}
    else OffTiming(cx, cy)
  }

  /** How many these are: none beside a finder, 20 across a timing line, 25 elsewhere. */
  function PatternCount(k: nat, i: nat, j: nat): nat {
    if (i == 0 && (j == 0 || j == k - 1)) || (i == k - 1 && j == 0) then 0
    else if i == 0 || j == 0 then 20
    else 25
  }

  ghost function OffTiming(cx: int, cy: int): set<Point> {
    set p | p in Rect(cx - 2, cy - 2, 5, 5) && p.0 != 6 && p.1 != 6
  }

  lemma AcrossColumn(cy: int)
    requires cy > 8
    ensures |OffTiming(6, cy)| == 20
  {
    var a, b := Rect(4, cy - 2, 2, 5), Rect(7, cy - 2, 2, 5);
    RectSize(4, cy - 2, 2, 5);
    RectSize(7, cy - 2, 2, 5);
    assert OffTiming(6, cy) == a + b && a !! b;
  }

  lemma AcrossRow(cx: int)
    requires cx > 8
    ensures |OffTiming(cx, 6)| == 20
  {
    var a, b := Rect(cx - 2, 4, 5, 2), Rect(cx - 2, 7, 5, 2);
    RectSize(cx - 2, 4, 5, 2);
    RectSize(cx - 2, 7, 5, 2);
    assert OffTiming(cx, 6) == a + b && a !! b;
  }

  lemma OffBoth(cx: int, cy: int)
    requires cx > 8 && cy > 8
    ensures |OffTiming(cx, cy)| == 25
  {
    RectSize(cx - 2, cy - 2, 5, 5);
    assert OffTiming(cx, cy) == Rect(cx - 2, cy - 2, 5, 5);
  }

  lemma PatternSize(version: Version, i: nat, j: nat)
    requires Standard(version)
    requires i < |version.alignmentPatternCenters| && j < |version.alignmentPatternCenters|
    ensures |PatternSet(version, i, j)| == PatternCount(|version.alignmentPatternCenters|, i, j)
  {
    hide OffTiming, Rect;
    var c, d: int := version.alignmentPatternCenters, version.Dimension();
    var k, cx: int, cy: int := |c|, c[i], c[j];
    assert i > 0 ==> c[0] + 12 <= c[i];
    assert j > 0 ==> c[0] + 12 <= c[j];
    assert i < k - 1 ==> c[i] + 12 <= c[k - 1];
    assert j < k - 1 ==> c[j] + 12 <= c[k - 1];
    if !BesideFinder(d, cx, cy) {
      if i == 0 {
        AcrossColumn(cy);
      } else if j == 0 {
        AcrossRow(cx);
      } else {
        OffBoth(cx, cy);
      }
    }
  }

  /** The patterns of the first n columns of centers, and of column n and the first m rows. */
  ghost function PatternsSet(version: Version, n: nat, m: nat): set<Point>
    requires n <= |version.alignmentPatternCenters| && m <= |version.alignmentPatternCenters|
    requires n == |version.alignmentPatternCenters| ==> m == 0
    decreases n, m
  {
    if m > 0 then PatternsSet(version, n, m - 1) + PatternSet(version, n, m - 1)
    else if n > 0 then PatternsSet(version, n - 1, |version.alignmentPatternCenters|)
    else {}
  }

  lemma {:induction false} PatternsMember(version: Version, n: nat, m: nat, p: Point)
    requires n <= |version.alignmentPatternCenters| && m <= |version.alignmentPatternCenters|
    requires n == |version.alignmentPatternCenters| ==> m == 0
    ensures p in PatternsSet(version, n, m) <==>
            exists i: nat, j: nat :: i < |version.alignmentPatternCenters| && j < |version.alignmentPatternCenters| &&
                                     (i < n || (i == n && j < m)) && p in PatternSet(version, i, j)
    decreases n, m
  {
    hide PatternSet;
    if m > 0 {
      PatternsMember(version, n, m - 1, p);
    } else if n > 0 {
      PatternsMember(version, n - 1, |version.alignmentPatternCenters|, p);
    }
  }

  lemma PatternsApart(version: Version, i: nat, j: nat, i': nat, j': nat)
    requires Standard(version)
    requires i < |version.alignmentPatternCenters| && j < |version.alignmentPatternCenters|
    requires i' < |version.alignmentPatternCenters| && j' < |version.alignmentPatternCenters|
    requires i != i' || j != j'
    ensures PatternSet(version, i, j) !! PatternSet(version, i', j')
  {
    var c := version.alignmentPatternCenters;
    assert i < i' ==> c[i] + 12 <= c[i'];
    assert i' < i ==> c[i'] + 12 <= c[i];
    assert j < j' ==> c[j] + 12 <= c[j'];
    assert j' < j ==> c[j'] + 12 <= c[j];
  }

  /** The modules of the patterns of one column of centers, of its first m. */
  function ColumnCount(k: nat, n: nat, m: nat): nat {
    if m == 0 then 0 else ColumnCount(k, n, m - 1) + PatternCount(k, n, m - 1)
  }

  function PatternsCount(k: nat, n: nat, m: nat): nat
    decreases n
  {
    (if n == 0 then 0 else PatternsCount(k, n - 1, k)) + ColumnCount(k, n, m)
  }

  lemma {:induction false} PatternsSize(version: Version, n: nat, m: nat)
    requires Standard(version)
    requires n <= |version.alignmentPatternCenters| && m <= |version.alignmentPatternCenters|
    requires n == |version.alignmentPatternCenters| ==> m == 0
    ensures |PatternsSet(version, n, m)| == PatternsCount(|version.alignmentPatternCenters|, n, m)
    decreases n, m
  {
    hide PatternSet, Standard, PatternCount;
    if m > 0 {
      var before, last := PatternsSet(version, n, m - 1), PatternSet(version, n, m - 1);
      PatternsSize(version, n, m - 1);
      PatternSize(version, n, m - 1);
      forall p | p in before ensures p !in last {
        PatternsMember(version, n, m - 1, p);
        var i: nat, j: nat :| i < |version.alignmentPatternCenters| && j < |version.alignmentPatternCenters| &&
                              (i < n || (i == n && j < m - 1)) && p in PatternSet(version, i, j);
        PatternsApart(version, i, j, n, m - 1);
      }
      assert before !! last;
    } else if n > 0 {
      PatternsSize(version, n - 1, |version.alignmentPatternCenters|);
    }
  }

  lemma {:induction false} ColumnTotal(k: nat, n: nat, m: nat)
    requires k >= 2 && n < k && m <= k
    ensures ColumnCount(k, n, m) ==
            if m == 0 then 0
            else if n == 0 then 20 * (if m == k then k - 2 else m - 1)
            else if n < k - 1 then 20 + 25 * (m - 1)
            else 25 * (m - 1)
  {
    if m > 0 {
      ColumnTotal(k, n, m - 1);
    }
  }

  lemma {:induction false} InnerTotal(k: nat, n: nat)
    requires k >= 2 && n < k
    ensures PatternsCount(k, n, 0) == if n == 0 then 0 else 20 * (k - 2) + (n - 1) * (20 + 25 * (k - 1))
  {
    if n > 0 {
      InnerTotal(k, n - 1);
      ColumnTotal(k, n - 1, k);
      assert PatternsCount(k, n, 0) == PatternsCount(k, n - 1, k);
      assert PatternsCount(k, n - 1, k) == PatternsCount(k, n - 1, 0) + ColumnCount(k, n - 1, k);
      var t := 20 + 25 * (k - 1);
      assert n > 1 ==> (n - 1) * t == (n - 2) * t + t;
    }
  }

  lemma PatternsTotal(k: nat)
    requires k >= 2
    ensures PatternsCount(k, k, 0) == (25 * k - 10) * k - 55
  {
    InnerTotal(k, k - 1);
    ColumnTotal(k, k - 1, k);
    assert PatternsCount(k, k, 0) == PatternsCount(k, k - 1, k);
    assert PatternsCount(k, k - 1, k) == PatternsCount(k, k - 1, 0) + ColumnCount(k, k - 1, k);
    assert (k - 2) * (20 + 25 * (k - 1)) == 25 * k * k - 55 * k + 10;
    assert (25 * k - 10) * k == 25 * k * k - 10 * k;
  }

  ghost function FunctionSet(version: Version): set<Point> {
    var d := version.Dimension();
    set p | p in Rect(0, 0, d, d) && IsFunction(version, p.0, p.1)
  }

  ghost function FixedSet(version: Version): set<Point> {
    var d := version.Dimension();
    Rect(0, 0, 9, 9) + Rect(d - 8, 0, 8, 9) + Rect(0, d - 8, 9, 8) + Rect(6, 9, 1, d - 17) + Rect(9, 6, d - 17, 1)
  }

  ghost function VersionSet(version: Version): set<Point> {
    var d := version.Dimension();
    if version.versionNumber >= 7 then Rect(d - 11, 0, 3, 6) + Rect(0, d - 11, 6, 3) else {}
  }

  lemma FixedSize(version: Version)
    requires version.Valid()
    ensures |FixedSet(version)| == 225 + 8 * version.versionNumber
  {
    hide Rect;
    var d := version.Dimension();
    var a, b, c, t, u :=
      Rect(0, 0, 9, 9), Rect(d - 8, 0, 8, 9), Rect(0, d - 8, 9, 8), Rect(6, 9, 1, d - 17), Rect(9, 6, d - 17, 1);
    RectSize(0, 0, 9, 9);
    RectSize(d - 8, 0, 8, 9);
    RectSize(0, d - 8, 9, 8);
    RectSize(6, 9, 1, d - 17);
    RectSize(9, 6, d - 17, 1);
    Beside(0, 0, 9, 9, d - 8, 0, 8, 9);
    Beside(0, 0, 9, 9, 0, d - 8, 9, 8);
    Beside(0, 0, 9, 9, 6, 9, 1, d - 17);
    Beside(0, 0, 9, 9, 9, 6, d - 17, 1);
    Beside(0, d - 8, 9, 8, d - 8, 0, 8, 9);
    Beside(6, 9, 1, d - 17, d - 8, 0, 8, 9);
    Beside(9, 6, d - 17, 1, d - 8, 0, 8, 9);
    Beside(6, 9, 1, d - 17, 0, d - 8, 9, 8);
    Beside(0, d - 8, 9, 8, 9, 6, d - 17, 1);
    Beside(6, 9, 1, d - 17, 9, 6, d - 17, 1);
    FiveApart(a, b, c, t, u);
  }

  lemma FiveApart(a: set<Point>, b: set<Point>, c: set<Point>, t: set<Point>, u: set<Point>)
    requires a !! b !! c !! t !! u
    ensures |a + b + c + t + u| == |a| + |b| + |c| + |t| + |u|
  {}

  /** Two rectangles, one to the left of the other or above it. */
  lemma Beside(left: int, top: int, w: nat, h: nat, left': int, top': int, w': nat, h': nat)
    requires left + w <= left' || top + h <= top' || top' + h' <= top
    ensures Rect(left, top, w, h) !! Rect(left', top', w', h')
  {}

  lemma VersionSize(version: Version)
    requires version.Valid()
    ensures |VersionSet(version)| == if version.versionNumber >= 7 then 36 else 0
  {
    hide Rect;
    var d := version.Dimension();
    RectSize(d - 11, 0, 3, 6);
    RectSize(0, d - 11, 6, 3);
    if version.versionNumber >= 7 {
      Beside(0, d - 11, 6, 3, d - 11, 0, 3, 6);
    }
  }

  lemma PatternClear(version: Version, i: nat, j: nat, p: Point)
    requires Standard(version)
    requires i < |version.alignmentPatternCenters| && j < |version.alignmentPatternCenters|
    ensures p in PatternSet(version, i, j) <==> InPattern(version, i, j, p.0, p.1) && p.0 != 6 && p.1 != 6
    ensures p in PatternSet(version, i, j) ==>
              p in Rect(0, 0, version.Dimension(), version.Dimension()) && p !in FixedSet(version) &&
              p !in VersionSet(version)
  {
    var c, d: int := version.alignmentPatternCenters, version.Dimension();
    var k := |c|;
    assert i > 0 ==> c[0] + 12 <= c[i];
    assert j > 0 ==> c[0] + 12 <= c[j];
    assert i < k - 1 ==> c[i] + 12 <= c[k - 1];
    assert j < k - 1 ==> c[j] + 12 <= c[k - 1];
  }

  ghost function AlignmentSet(version: Version): set<Point> {
    PatternsSet(version, |version.alignmentPatternCenters|, 0)
  }

  lemma AlignmentMember(version: Version, p: Point)
    requires Standard(version)
    ensures p in AlignmentSet(version) <==>
            InAlignmentPattern(version, p.0, p.1, |version.alignmentPatternCenters|, 0) && p.0 != 6 && p.1 != 6
    ensures p in AlignmentSet(version) ==>
              p in Rect(0, 0, version.Dimension(), version.Dimension()) && p !in FixedSet(version) &&
              p !in VersionSet(version)
  {
    hide PatternSet, InPattern, FixedSet, VersionSet, Rect, Standard;
    var k := |version.alignmentPatternCenters|;
    PatternsMember(version, k, 0, p);
    forall i: nat, j: nat | i < k && j < k
      ensures p in PatternSet(version, i, j) <==> InPattern(version, i, j, p.0, p.1) && p.0 != 6 && p.1 != 6
      ensures p in PatternSet(version, i, j) ==>
                p in Rect(0, 0, version.Dimension(), version.Dimension()) && p !in FixedSet(version) &&
                p !in VersionSet(version)
    {
      PatternClear(version, i, j, p);
    }
  }

  lemma FixedMember(version: Version, p: Point)
    requires version.Valid()
    ensures p in FixedSet(version) + VersionSet(version) ==> p in FunctionSet(version)
    ensures p in FunctionSet(version) ==>
              p in FixedSet(version) + VersionSet(version) ||
              (InAlignmentPattern(version, p.0, p.1, |version.alignmentPatternCenters|, 0) && p.0 != 6 && p.1 != 6)
  {
    hide InAlignmentPattern;
  }

  lemma FixedApart(version: Version)
    requires version.Valid()
    ensures FixedSet(version) !! VersionSet(version)
  {}

  lemma FunctionSize(version: Version)
    requires Standard(version)
    ensures |FunctionSet(version)| ==
            225 + 8 * version.versionNumber + (if version.versionNumber >= 7 then 36 else 0) +
            (if version.versionNumber >= 2
             then (25 * |version.alignmentPatternCenters| - 10) * |version.alignmentPatternCenters| - 55 else 0)
  {
    hide Rect, FixedSet, VersionSet, AlignmentSet, InAlignmentPattern, FunctionSet, PatternsCount;
    var k, d := |version.alignmentPatternCenters|, version.Dimension();
    var a, b, c := FixedSet(version), VersionSet(version), AlignmentSet(version);
    forall p ensures p in FunctionSet(version) <==> p in a + b + c {
      FixedMember(version, p);
      AlignmentMember(version, p);
      if p in c {
        FunctionMember(version, p);
      }
    }
    assert FunctionSet(version) == a + b + c;
    FixedApart(version);
    forall p | p in c ensures p !in a && p !in b {
      AlignmentMember(version, p);
    }
    FixedSize(version);
    VersionSize(version);
    AlignmentSize(version);
    assert |a + b + c| == |a| + |b| + |c|;
  }

  lemma FunctionMember(version: Version, p: Point)
    requires p in Rect(0, 0, version.Dimension(), version.Dimension())
    requires InAlignmentPattern(version, p.0, p.1, |version.alignmentPatternCenters|, 0)
    ensures p in FunctionSet(version)
  {
    hide InAlignmentPattern;
  }

  lemma AlignmentSize(version: Version)
    requires Standard(version)
    ensures |AlignmentSet(version)| ==
            if version.versionNumber >= 2
            then (25 * |version.alignmentPatternCenters| - 10) * |version.alignmentPatternCenters| - 55 else 0
  {
    var k := |version.alignmentPatternCenters|;
    PatternsSize(version, k, 0);
    if version.versionNumber >= 2 {
      PatternsTotal(k);
    }
  }

  lemma DataAndFunction(version: Version)
    requires Standard(version)
    ensures |DataModules(FullWalk(version.Dimension()), version)| + |FunctionSet(version)| ==
            version.Dimension() * version.Dimension()
  {
    hide IsFunction, DataModules, FullWalk, Rect, FunctionSet;
    var d := version.Dimension();
    var walk := DataModules(FullWalk(d), version);
    var data := set p | p in walk;
    EveryDataModuleOnce(version, (0, 0));
    SetOfSeq(walk);
    forall p
      ensures p in Rect(0, 0, d, d) <==> p in FunctionSet(version) || p in data
      ensures p in FunctionSet(version) ==> p !in data
    {
      EveryDataModuleOnce(version, p);
      GridMember(d, p);
      GridFunction(version, p);
    }
    assert Rect(0, 0, d, d) == FunctionSet(version) + data;
    RectSize(0, 0, d, d);
  }

  lemma Square(v: nat)
    ensures (17 + 4 * v) * (17 + 4 * v) == (16 * v + 128) * v + 64 + 225 + 8 * v
  {}

  /** The number of modules that carry data, for the coordinates of the standard: of version v with k of
      them, (16v + 128)v + 64, less (25k - 10)k - 55 from version 2 on, less 36 from version 7 on. */
  lemma DataModuleCount(version: Version)
    requires Standard(version)
    ensures
      var v, k := version.versionNumber, |version.alignmentPatternCenters|;
      |DataModules(FullWalk(version.Dimension()), version)| ==
      (16 * v + 128) * v + 64 - (if v >= 2 then (25 * k - 10) * k - 55 else 0) - (if v >= 7 then 36 else 0)
  {
    hide DataModules, FullWalk, FunctionSet, Standard;
    DataAndFunction(version);
    FunctionSize(version);
    Square(version.versionNumber);
  }

  lemma GridMember(d: nat, p: Point)
    ensures p in Rect(0, 0, d, d) <==> 0 <= p.0 < d && 0 <= p.1 < d
  {}

  lemma GridFunction(version: Version, p: Point)
    ensures p in FunctionSet(version) <==>
            p in Rect(0, 0, version.Dimension(), version.Dimension()) && IsFunction(version, p.0, p.1)
  {
    hide IsFunction, Rect;
  }

  // ----- In which order

  /** The right column of pair n from column c leftwards, where column 6 is skipped. */
  function RightColumn(c: int, n: nat): int {
    if c >= 6 && c - 2 * n <= 6 then c - 2 * n - 1 else c - 2 * n
  }

  /** How many modules the first n pairs of columns have. */
  function Passed(dimension: nat, n: nat): nat {
    if n == 0 then 0 else Passed(dimension, n - 1) + 2 * dimension
  }

  lemma {:induction false} PassedProduct(dimension: nat, n: nat)
    ensures Passed(dimension, n) == 2 * dimension * n
  {
    if n > 0 {
      PassedProduct(dimension, n - 1);
      assert 2 * dimension * n == 2 * dimension * (n - 1) + 2 * dimension;
    }
  }

  lemma {:induction false} WalkAt(dimension: nat, column: int, up: bool, n: nat, row: nat, offset: nat)
    requires OnTrack(column) && RightColumn(column, n) > 0 && row < dimension && offset < 2
    ensures
      var walk, k := Walk(dimension, column, up), Passed(dimension, n) + 2 * row + offset;
      k < |walk| &&
      walk[k] == (RightColumn(column, n) - offset, if up == (n % 2 == 0) then dimension - 1 - row else row)
    decreases n
  {
    hide Walk, ColumnPair;
    WalkUnfold(dimension, column, up);
    var c := if column == 6 then 5 else column;
    var pair, rest := ColumnPair(dimension, c, up), Walk(dimension, c - 2, !up);
    PairAt(dimension, c, up, row, offset);
    if n > 0 {
      WalkAt(dimension, c - 2, !up, n - 1, row, offset);
    }
  }

  lemma PairAt(dimension: nat, c: int, up: bool, row: nat, offset: nat)
    requires row < dimension && offset < 2
    ensures |ColumnPair(dimension, c, up)| == 2 * dimension
    ensures ColumnPair(dimension, c, up)[2 * row + offset] == (c - offset, if up then dimension - 1 - row else row)
  {
    assert (2 * row + offset) / 2 == row && (2 * row + offset) % 2 == offset;
  }

  /** The module at each place of the walk: pairs of columns from the right edge, upwards in every other
      pair beginning with the first, and in each row the right one first. */
  lemma FullWalkAt(version: Version, n: nat, row: nat, offset: nat)
    requires version.Valid() && row < version.Dimension() && offset < 2 && 2 * n < version.Dimension() - 1
    ensures
      var d := version.Dimension();
      var k, x := 2 * d * n + 2 * row + offset, d - 1 - 2 * n - offset;
      && k < |FullWalk(d)|
      && FullWalk(d)[k] == (if d - 1 - 2 * n <= 6 then x - 1 else x, if n % 2 == 0 then d - 1 - row else row)
  {
    var d := version.Dimension();
    PassedProduct(d, n);
    WalkAt(d, d - 1, true, n, row, offset);
  }

  /** The masks in other words: by remainders of the coordinates and of their product modulo 6. */
  lemma MaskConditions(x: nat, y: nat)
    ensures DataMask(0, x, y) <==> x % 2 == y % 2
    ensures DataMask(1, x, y) <==> y % 2 == 0
    ensures DataMask(2, x, y) <==> x % 3 == 0
    ensures DataMask(3, x, y) <==> x % 3 == (3 - y % 3) % 3
    ensures DataMask(4, x, y) <==> (y % 4 < 2 <==> x % 6 < 3)
    ensures DataMask(5, x, y) <==> (x * y) % 6 == 0
    ensures DataMask(6, x, y) <==> (x * y) % 6 < 3
    ensures DataMask(7, x, y) <==> (x % 2 == y % 2 <==> (x * y) % 3 != 1)
  {
    SumMasks(x, y);
    hide DataMask;
    Commuted(x, y);
    ProductMasks(x, y, x * y);
  }

  lemma SumMasks(x: nat, y: nat)
    ensures DataMask(0, x, y) <==> x % 2 == y % 2
    ensures DataMask(1, x, y) <==> y % 2 == 0
    ensures DataMask(2, x, y) <==> x % 3 == 0
    ensures DataMask(3, x, y) <==> x % 3 == (3 - y % 3) % 3
    ensures DataMask(4, x, y) <==> (y % 4 < 2 <==> x % 6 < 3)
  {
    SumModTwo(x, y);
    SumModThree(x, y);
    HalfParity(y);
    ThirdParity(x);
    SumParity(y / 2, x / 3);
  }

  lemma ProductMasks(x: nat, y: nat, t: nat)
    requires t == x * y && t == y * x
    ensures DataMask(5, x, y) <==> t % 6 == 0
    ensures DataMask(6, x, y) <==> t % 6 < 3
    ensures DataMask(7, x, y) <==> (x % 2 == y % 2 <==> t % 3 != 1)
  {
    MasksUnfolded(x, y, t);
    Products(t);
    SumModTwo(x, y);
    Bounds(y + x, t);
    TwoParities((y + x) % 2, t % 3);
  }

  lemma MasksUnfolded(x: nat, y: nat, t: nat)
    requires t == x * y && t == y * x
    ensures DataMask(5, x, y) <==> t % 2 + t % 3 == 0
    ensures DataMask(6, x, y) <==> (t % 2 + t % 3) % 2 == 0
    ensures DataMask(7, x, y) <==> ((y + x) % 2 + t % 3) % 2 == 0
  {}

  lemma Bounds(s: nat, t: nat)
    ensures 0 <= s % 2 < 2 && 0 <= t % 3 < 3
  {}

  lemma Commuted(x: nat, y: nat)
    ensures x * y == y * x && x + y == y + x
  {}

  lemma SumModTwo(x: nat, y: nat)
    ensures (y + x) % 2 == 0 <==> x % 2 == y % 2
  {}

  lemma SumModThree(x: nat, y: nat)
    ensures (y + x) % 3 == 0 <==> x % 3 == (3 - y % 3) % 3
  {}

  lemma SumParity(a: nat, b: nat)
    ensures (a + b) % 2 == 0 <==> (a % 2 == 0 <==> b % 2 == 0)
  {}

  lemma HalfParity(y: nat)
    ensures (y / 2) % 2 == 0 <==> y % 4 < 2
  {}

  lemma ThirdParity(x: nat)
    ensures (x / 3) % 2 == 0 <==> x % 6 < 3
  {}

  lemma TwoParities(a: nat, b: nat)
    requires a < 2 && b < 3
    ensures (a + b) % 2 == 0 <==> (a == 0 <==> b != 1)
  {}

  lemma ModTwo(t: nat)
    ensures t % 2 == (t % 6) % 2
  {}

  lemma ModThree(t: nat)
    ensures t % 3 == (t % 6) % 3
  {}

  lemma Products(t: nat)
    ensures t % 2 + t % 3 == 0 <==> t % 6 == 0
    ensures (t % 2 + t % 3) % 2 == 0 <==> t % 6 < 3
  {
    ModTwo(t);
    ModThree(t);
    SmallProducts(t % 6);
  }

  lemma SmallProducts(r: nat)
    requires r < 6
    ensures r % 2 + r % 3 == 0 <==> r == 0
    ensures (r % 2 + r % 3) % 2 == 0 <==> r < 3
  {
    assert r == 0 || r == 1 || r == 2 || r == 3 || r == 4 || r == 5;
  }

  // ----- Where each bit stands

  /** The bits of the format word, counted from the lowest: down the eighth column and then leftwards in the
      eighth row; and leftwards from the right edge and then downwards to the lower edge. */
  lemma FormatBitPlaces(d: int, i: nat)
    requires i < 15
    ensures TOP_LEFT_FORMAT[14 - i] ==
            if i < 6 then (8, i) else if i < 8 then (8, i + 1) else if i == 8 then (7, 8) else (14 - i, 8)
    ensures OtherFormat(d)[14 - i] == if i < 8 then (d - 1 - i, 8) else (8, d - 15 + i)
  {}

  /** The bits of the version word, counted from the lowest: three to a row from the top, and mirrored. */
  lemma VersionBitPlaces(d: int, i: nat)
    requires i < 18
    ensures TopRightVersion(d)[17 - i] == (d - 11 + i % 3, i / 3)
    ensures BottomLeftVersion(d)[17 - i] == (i / 3, d - 11 + i % 3)
  {}

  /** Eight bits make a codeword, the first of them the highest. */
  lemma PackedByte(bits: seq<bool>, k: nat)
    requires 8 * k + 8 <= |bits|
    ensures Pack(bits)[k] ==
            128 * Bit(bits, 8 * k) + 64 * Bit(bits, 8 * k + 1) + 32 * Bit(bits, 8 * k + 2) + 16 * Bit(bits, 8 * k + 3) +
            8 * Bit(bits, 8 * k + 4) + 4 * Bit(bits, 8 * k + 5) + 2 * Bit(bits, 8 * k + 6) + Bit(bits, 8 * k + 7)
  {
    hide BitsValue;
    var byte := bits[8 * k..8 * k + 8];
    EightBits(byte);
  }

  lemma EightBits(byte: seq<bool>)
    requires |byte| == 8
    ensures BitsValue(byte) ==
            128 * Bit(byte, 0) + 64 * Bit(byte, 1) + 32 * Bit(byte, 2) + 16 * Bit(byte, 3) +
            8 * Bit(byte, 4) + 4 * Bit(byte, 5) + 2 * Bit(byte, 6) + Bit(byte, 7)
  {
    hide BitsValue, Bit;
    NoBits(byte);
    ValueSix(byte, 0);
    ValueOne(byte, 6);
    ValueOne(byte, 7);
    assert byte[..8] == byte;
  }
}
