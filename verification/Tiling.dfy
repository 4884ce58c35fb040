/**
 * Column widths on one output: arrange_tiling of src/tree/workspace.c and
 * window_resize_tiled_horizontal of src/commands/resize.c, over the reals.
 */
module Tiling {
  import opened Seqs

  const MIN_SANE_W: real := 100.0

  /** Half away from zero: section 7.12.9.6 of ISO C11. */
  function Round(v: real): int {
    if v >= 0.0 then (v + 0.5).Floor else -((0.5 - v).Floor)
  }

  lemma RoundNear(v: real)
    ensures v - 0.5 <= Round(v) as real <= v + 0.5
  {
  }

  lemma RoundExact(n: int)
    ensures Round(n as real) == n
  {
  }

  datatype Box = Box(x: int, width: int)

  // ---------------------------------------------------------------------
  // Fractions
  // ---------------------------------------------------------------------

  function Sum(fs: seq<real>): real {
    if fs == [] then 0.0 else Sum(fs[..|fs| - 1]) + fs[|fs| - 1]
  }

  function CountNew(fs: seq<real>): nat {
    if fs == [] then 0 else CountNew(fs[..|fs| - 1]) + if fs[|fs| - 1] <= 0.0 then 1 else 0
  }

  /** The fraction given to columns that have none yet. */
  function Share(current: real, total: nat, unsized: nat): real {
    if current <= 0.0 then 1.0
    else if total > unsized then current / (total - unsized) as real
    else current
  }

  function Sized(f: real, share: real): real { if f <= 0.0 then share else f }

  function AllSized(fs: seq<real>, share: real): (r: seq<real>)
    ensures |r| == |fs|
  {
    seq(|fs|, i requires 0 <= i < |fs| => Sized(fs[i], share))
  }

  function Scaled(fs: seq<real>, total: real): (r: seq<real>)
    requires total != 0.0
    ensures |r| == |fs|
  {
    seq(|fs|, i requires 0 <= i < |fs| => fs[i] / total)
  }

  ghost predicate AllPositive(fs: seq<real>) { forall i :: 0 <= i < |fs| ==> fs[i] > 0.0 }

  lemma {:induction false} SumPositive(fs: seq<real>)
    requires AllPositive(fs)
    ensures Sum(fs) >= 0.0 && (fs != [] ==> Sum(fs) > 0.0)
  {
    if fs != [] {
      SumPositive(fs[..|fs| - 1]);
    }
  }

  lemma {:induction false} SumScaled(fs: seq<real>, total: real)
    requires total != 0.0
    ensures Sum(Scaled(fs, total)) == Sum(fs) / total
  {
    if fs != [] {
      var n := |fs| - 1;
      assert Scaled(fs, total)[..n] == Scaled(fs[..n], total);
      SumScaled(fs[..n], total);
      DivideSum(Sum(fs[..n]), fs[n], total);
    }
  }

  lemma DivideSum(a: real, b: real, t: real)
    requires t != 0.0
    ensures a / t + b / t == (a + b) / t
  {
  }

  lemma {:induction false} CountNewBound(fs: seq<real>)
    ensures CountNew(fs) <= |fs|
    ensures CountNew(fs) == |fs| ==> Sum(fs) <= 0.0
    ensures AllPositive(fs) <==> CountNew(fs) == 0
  {
    if fs != [] {
      CountNewBound(fs[..|fs| - 1]);
      assert AllPositive(fs) <==> AllPositive(fs[..|fs| - 1]) && fs[|fs| - 1] > 0.0;
    }
  }

  lemma SharePositive(fs: seq<real>)
    ensures Share(Sum(fs), |fs|, CountNew(fs)) > 0.0
  {
    CountNewBound(fs);
    if Sum(fs) > 0.0 {
      DivisionPositive(Sum(fs), (|fs| - CountNew(fs)) as real);
    }
  }

  lemma SelfQuotient(t: real)
    requires t != 0.0
    ensures t / t == 1.0
  {
  }

  lemma DivisionPositive(a: real, b: real)
    requires a > 0.0 && b > 0.0
    ensures a / b > 0.0
  {
  }

  /** The fractions as the first three loops leave them. */
  function Sizes(fs: seq<real>): (r: seq<real>)
    ensures |r| == |fs|
  {
    AllSized(fs, Share(Sum(fs), |fs|, CountNew(fs)))
  }

  lemma SizesPositive(fs: seq<real>)
    ensures AllPositive(Sizes(fs)) && (fs != [] ==> Sum(Sizes(fs)) > 0.0)
    ensures forall i :: 0 <= i < |fs| && fs[i] > 0.0 ==> Sizes(fs)[i] == fs[i]
  {
    SharePositive(fs);
    SumPositive(Sizes(fs));
  }

  function Normalised(fs: seq<real>): (r: seq<real>)
    requires fs != []
    ensures |r| == |fs|
  {
    SizesPositive(fs);
    Scaled(Sizes(fs), Sum(Sizes(fs)))
  }

  /** Whatever the fractions were, they end up positive and sum to one. */
  lemma NormalisedSumsToOne(fs: seq<real>)
    requires fs != []
    ensures AllPositive(Normalised(fs)) && Sum(Normalised(fs)) == 1.0
  {
    SizesPositive(fs);
    var total := Sum(Sizes(fs));
    SumScaled(Sizes(fs), total);
    SelfQuotient(total);
    forall i | 0 <= i < |fs| ensures Normalised(fs)[i] > 0.0 {
      DivisionPositive(Sizes(fs)[i], total);
    }
  }

  /** Columns that had a size keep their sizes relative to each other. */
  lemma NormalisedKeepsRatios(fs: seq<real>, i: nat, j: nat)
    requires i < |fs| && j < |fs| && fs[i] > 0.0 && fs[j] > 0.0
    ensures Normalised(fs)[i] * fs[j] == Normalised(fs)[j] * fs[i]
  {
    SizesPositive(fs);
    hide Sum, CountNew, Share;
    var total := Sum(Sizes(fs));
    assert Normalised(fs)[i] == fs[i] / total && Normalised(fs)[j] == fs[j] / total;
    CrossRatio(fs[i], fs[j], total);
  }

  lemma CrossRatio(a: real, b: real, t: real)
    requires t != 0.0
    ensures (a / t) * b == (b / t) * a
  {
  }

  // ---------------------------------------------------------------------
  // New columns
  // ---------------------------------------------------------------------

  lemma {:induction false} SumSized(fs: seq<real>, share: real)
    requires forall k :: 0 <= k < |fs| ==> fs[k] >= 0.0
    ensures Sum(AllSized(fs, share)) == Sum(fs) + CountNew(fs) as real * share
  {
    if fs != [] {
      var n := |fs| - 1;
      SumSized(fs[..n], share);
      assert AllSized(fs, share)[..n] == AllSized(fs[..n], share);
      Distribute(CountNew(fs[..n]) as real, 1.0, share);
    }
  }

  /** Either every column is new, or those that are not have all of the width so far. */
  lemma {:induction false} NoneOrSome(fs: seq<real>)
    requires forall k :: 0 <= k < |fs| ==> fs[k] >= 0.0
    ensures CountNew(fs) <= |fs|
    ensures if CountNew(fs) == |fs| then Sum(fs) == 0.0 else Sum(fs) > 0.0
  {
    if fs != [] {
      NoneOrSome(fs[..|fs| - 1]);
    }
  }

  lemma TimesQuotient(a: real, b: real)
    requires b != 0.0
    ensures a / b * b == a
  {
  }

  /** The arithmetic of the shares: u of n columns are new, and the others come to sum. */
  lemma EqualShares(sum: real, n: real, u: real, share: real)
    requires n > u >= 0.0 && sum > 0.0 && share == sum / (n - u)
    ensures share > 0.0 && sum + u * share == n * share
  {
    DivisionPositive(sum, n - u);
    TimesQuotient(sum, n - u);
    assert (n - u) * share == n * share - u * share;
  }

  lemma OneOf(n: real, share: real)
    requires n > 0.0 && share > 0.0
    ensures n * share != 0.0 && share / (n * share) * n == 1.0
  {
    ProductPositive(n, share);
    var q := share / (n * share);
    TimesQuotient(share, n * share);
    assert q * (n * share) == q * n * share;
    assert (q * n - 1.0) * share == 0.0;
  }

  lemma ProductPositive(a: real, b: real)
    requires a > 0.0 && b > 0.0
    ensures a * b > 0.0
  {
  }

  lemma ShareAdds(sum: real, n: nat, u: nat)
    requires 0 < n && u <= n && if u == n then sum == 0.0 else sum > 0.0
    ensures Share(sum, n, u) > 0.0 && sum + u as real * Share(sum, n, u) == n as real * Share(sum, n, u)
  {
    if u < n {
      EqualShares(sum, n as real, u as real, Share(sum, n, u));
    }
  }

  /** All columns come to as many shares of a new one as there are columns. */
  lemma SizesAreShares(fs: seq<real>)
    requires fs != [] && forall k :: 0 <= k < |fs| ==> fs[k] >= 0.0
    ensures var share := Share(Sum(fs), |fs|, CountNew(fs));
            share > 0.0 && Sum(Sizes(fs)) == |fs| as real * share
  {
    hide Sum, CountNew, Share, AllSized;
    NoneOrSome(fs);
    var share := Share(Sum(fs), |fs|, CountNew(fs));
    SumSized(fs, share);
    ShareAdds(Sum(fs), |fs|, CountNew(fs));
    assert Sum(Sizes(fs)) == Sum(fs) + CountNew(fs) as real * share;
  }

  lemma NormalisedIs(fs: seq<real>)
    requires fs != []
    ensures Sum(Sizes(fs)) != 0.0 && Normalised(fs) == Scaled(Sizes(fs), Sum(Sizes(fs)))
  {
    SizesPositive(fs);
  }

  lemma ScaledAt(fs: seq<real>, total: real, i: nat)
    requires total != 0.0 && i < |fs|
    ensures Scaled(fs, total)[i] == fs[i] / total
  {
  }

  /** One of n equal parts. */
  ghost predicate IsEqualPart(f: real, n: nat) { f * n as real == 1.0 }

  /** A new column gets an equal part of the whole, whether the others have a size or not. */
  lemma NewColumnsShareEqually(fs: seq<real>, i: nat)
    requires i < |fs| && fs[i] == 0.0 && forall k :: 0 <= k < |fs| ==> fs[k] >= 0.0
    ensures IsEqualPart(Normalised(fs)[i], |fs|)
  {
    SizesAreShares(fs);
    SizesAre(fs);
    NormalisedIs(fs);
    hide Sum, CountNew, Share, Sizes, Normalised, Scaled, IsEqualPart;
    ScaledAt(Sizes(fs), Sum(Sizes(fs)), i);
    PartOfShares(Share(Sum(fs), |fs|, CountNew(fs)), Sum(Sizes(fs)), |fs|);
  }

  lemma PartOfShares(share: real, total: real, n: nat)
    requires n > 0 && share > 0.0 && total == n as real * share
    ensures total != 0.0 && IsEqualPart(share / total, n)
  {
    OneOf(n as real, share);
  }

  lemma NormalisedIdempotent(fs: seq<real>)
    requires fs != [] && AllPositive(fs) && Sum(fs) == 1.0
    ensures Normalised(fs) == fs
  {
    SizesPositive(fs);
    assert Sizes(fs) == fs;
  }

  /** Arranging what has been arranged changes nothing. */
  lemma NormalisedTwice(fs: seq<real>)
    requires fs != []
    ensures Normalised(Normalised(fs)) == Normalised(fs)
  {
    NormalisedSumsToOne(fs);
    NormalisedIdempotent(Normalised(fs));
  }

  // ---------------------------------------------------------------------
  // Pixels
  // ---------------------------------------------------------------------

  /** What is left for the columns once the gaps are taken. */
  function ContentWidth(n: nat, box: Box, gap: int): int { box.width - gap * (n - 1) }

  function PixelWidth(f: real, content: int): int { Round(f * content as real) }

  /** Where column i starts. */
  function Left(fs: seq<real>, box: Box, gap: int, content: int, i: nat): int
    requires i <= |fs|
  {
    if i == 0 then box.x else Left(fs, box, gap, content, i - 1) + PixelWidth(fs[i - 1], content) + gap
  }

  /** How wide column i is: the last one takes what remains. */
  function ColumnWidth(fs: seq<real>, box: Box, gap: int, i: nat): int
    requires i < |fs|
  {
    var content := ContentWidth(|fs|, box, gap);
    if i == |fs| - 1 then box.x + box.width - Left(fs, box, gap, content, i)
    else PixelWidth(fs[i], content)
  }

  lemma LeftStarts(fs: seq<real>, box: Box, gap: int, content: int)
    ensures Left(fs, box, gap, content, 0) == box.x
  {
  }

  lemma LeftGoesOn(fs: seq<real>, box: Box, gap: int, content: int, j: nat)
    requires j < |fs| && content == ContentWidth(|fs|, box, gap)
    ensures Left(fs, box, gap, content, j + 1)
            == Left(fs, box, gap, content, j) + PixelWidth(fs[j], content) + gap
    ensures ColumnWidth(fs, box, gap, j)
            == if j == |fs| - 1 then box.x + box.width - Left(fs, box, gap, content, j) else PixelWidth(fs[j], content)
  {
  }

  /** The rounded widths of the columns, together. */
  function PixelSum(fs: seq<real>, content: int): int {
    if fs == [] then 0 else PixelSum(fs[..|fs| - 1], content) + PixelWidth(fs[|fs| - 1], content)
  }

  lemma {:induction false} LeftIs(fs: seq<real>, box: Box, gap: int, content: int, i: nat)
    requires i <= |fs|
    ensures Left(fs, box, gap, content, i) == box.x + PixelSum(fs[..i], content) + gap * i
  {
    hide PixelWidth;
    if i > 0 {
      LeftIs(fs, box, gap, content, i - 1);
      assert fs[..i][..i - 1] == fs[..i - 1];
      assert gap * i == gap * (i - 1) + gap;
    }
  }

  /** There is room for the columns before the last one, as rounded. */
  predicate Fits(fs: seq<real>, content: int)
    requires fs != []
  {
    content >= 0 && PixelSum(fs[..|fs| - 1], content) <= content
  }

  lemma PixelWidthSign(f: real, content: int)
    requires f > 0.0
    ensures if content >= 0 then PixelWidth(f, content) >= 0 else PixelWidth(f, content) <= 0
  {
    assert content >= 0 ==> f * content as real >= 0.0;
    assert content <= 0 ==> f * content as real <= 0.0;
  }

  lemma {:induction false} PixelSumZero(fs: seq<real>, content: int)
    requires forall i :: 0 <= i < |fs| ==> PixelWidth(fs[i], content) == 0
    ensures PixelSum(fs, content) == 0
  {
    hide PixelWidth;
    if fs != [] {
      PixelSumZero(fs[..|fs| - 1], content);
    }
  }

  /** No column has a negative width if and only if those before the last one fit. */
  lemma NonNegativeIff(fs: seq<real>, box: Box, gap: int)
    requires fs != [] && AllPositive(fs)
    ensures (forall i :: 0 <= i < |fs| ==> ColumnWidth(fs, box, gap, i) >= 0)
            <==> Fits(fs, ContentWidth(|fs|, box, gap))
  {
    var n, content := |fs| - 1, ContentWidth(|fs|, box, gap);
    hide PixelWidth, Left;
    LeftIs(fs, box, gap, content, n);
    assert ColumnWidth(fs, box, gap, n) == content - PixelSum(fs[..n], content);
    forall i | 0 <= i < n
      ensures ColumnWidth(fs, box, gap, i) == PixelWidth(fs[i], content)
      ensures if content >= 0 then PixelWidth(fs[i], content) >= 0 else PixelWidth(fs[i], content) <= 0
    {
      PixelWidthSign(fs[i], content);
    }
    if content < 0 && forall i :: 0 <= i < n ==> ColumnWidth(fs, box, gap, i) >= 0 {
      forall i | 0 <= i < n
        ensures PixelWidth(fs[..n][i], content) == 0
      {
        assert ColumnWidth(fs, box, gap, i) >= 0;
      }
      PixelSumZero(fs[..n], content);
      assert ColumnWidth(fs, box, gap, n) < 0;
    }
  }

  /** Half a pixel for every column before it is enough for the last one. */
  lemma RoomIsEnough(fs: seq<real>, box: Box, gap: int)
    requires fs != [] && AllPositive(fs) && Sum(fs) == 1.0
    requires var content := ContentWidth(|fs|, box, gap);
             content >= 0 && fs[|fs| - 1] * content as real >= (|fs| - 1) as real / 2.0
    ensures Fits(fs, ContentWidth(|fs|, box, gap))
  {
    hide PixelWidth, Left;
    WidthsNearShares(fs, box, gap, |fs| - 1);
    LeftIs(fs, box, gap, ContentWidth(|fs|, box, gap), |fs| - 1);
  }

  /** Four equal columns in two pixels: each of the first three is rounded up, and the last one is negative. */
  lemma LastWidthNegative()
    ensures var fs := [0.25, 0.25, 0.25, 0.25];
            AllPositive(fs) && Normalised(fs) == fs && ColumnWidth(fs, Box(0, 2), 0, 3) == -1
  {
    var fs := [0.25, 0.25, 0.25, 0.25];
    assert fs[..3] == [0.25, 0.25, 0.25] && fs[..3][..2] == [0.25, 0.25] && fs[..3][..2][..1] == [0.25];
    assert Sum(fs[..3][..2][..1]) == 0.25;
    assert Sum(fs[..3][..2]) == 0.5;
    assert Sum(fs) == 1.0;
    NormalisedIdempotent(fs);
    assert PixelWidth(0.25, 2) == 1;
    hide PixelWidth, Sum;
    var box := Box(0, 2);
    LeftGoesOn(fs, box, 0, 2, 0);
    LeftGoesOn(fs, box, 0, 2, 1);
    LeftGoesOn(fs, box, 0, 2, 2);
    LeftGoesOn(fs, box, 0, 2, 3);
  }

  lemma Distribute(a: real, b: real, c: real)
    ensures (a + b) * c == a * c + b * c
  {
  }

  lemma {:induction false} LeftNearIdeal(fs: seq<real>, box: Box, gap: int, content: int, i: nat)
    requires i <= |fs|
    ensures var drift := Left(fs, box, gap, content, i) as real
                         - (box.x as real + Sum(fs[..i]) * content as real + (gap * i) as real);
            -(i as real / 2.0) <= drift <= i as real / 2.0
  {
    hide PixelWidth;
    if i > 0 {
      LeftNearIdeal(fs, box, gap, content, i - 1);
      assert fs[..i][..i - 1] == fs[..i - 1];
      PixelWidthNear(fs[i - 1], content);
      Distribute(Sum(fs[..i - 1]), fs[i - 1], content as real);
      assert gap * i == gap * (i - 1) + gap;
    }
  }

  lemma PixelWidthNear(f: real, content: int)
    ensures f * content as real - 0.5 <= PixelWidth(f, content) as real <= f * content as real + 0.5
  {
    RoundNear(f * content as real);
  }

  /** Every column is within half a pixel of its share, the last within half a pixel per column before it. */
  lemma WidthsNearShares(fs: seq<real>, box: Box, gap: int, i: nat)
    requires i < |fs| && Sum(fs) == 1.0
    ensures var share := fs[i] * ContentWidth(|fs|, box, gap) as real;
            var slack := if i < |fs| - 1 then 0.5 else (|fs| - 1) as real / 2.0;
            share - slack <= ColumnWidth(fs, box, gap, i) as real <= share + slack
  {
    hide PixelWidth, Left;
    var content := ContentWidth(|fs|, box, gap);
    if i < |fs| - 1 {
      PixelWidthNear(fs[i], content);
    } else {
      LeftNearIdeal(fs, box, gap, content, i);
      assert fs[..i + 1] == fs;
      var s, c := Sum(fs[..i]), content as real;
      assert s + fs[i] == 1.0;
      Distribute(s, fs[i], c);
      assert s * c + fs[i] * c == c;
    }
  }

  // ---------------------------------------------------------------------
  // arrange_tiling
  // ---------------------------------------------------------------------

  class Column {
    var widthFraction: real
    var childTotalWidth: real
    var x: real
    var width: real
    var isFirstChild: bool
    var isLastChild: bool

    constructor (widthFraction: real)
      ensures this.widthFraction == widthFraction
    {
      this.widthFraction := widthFraction;
      childTotalWidth, x, width, isFirstChild, isLastChild := 0.0, 0.0, 0.0, false, false;
    }

    /** Makes the column's fraction wider by so many pixels. */
    method Widen(amount: int)
      requires childTotalWidth != 0.0
      modifies `widthFraction
      ensures widthFraction == old(widthFraction) + amount as real / childTotalWidth
    {
      widthFraction := widthFraction + amount as real / childTotalWidth;
    }

    /** Puts the column at columnX and returns where the next one goes. */
    method Place(columnX: real, content: int, last: bool, box: Box, gap: int) returns (next: real)
      modifies `childTotalWidth, `x, `width
      ensures childTotalWidth == content as real && x == columnX
      ensures next == columnX + PixelWidth(widthFraction, content) as real + gap as real
      ensures width == if last then box.x as real + box.width as real - columnX
                       else PixelWidth(widthFraction, content) as real
    {
      childTotalWidth := content as real;
      x := columnX;
      width := PixelWidth(widthFraction, content) as real;
      next := columnX + width + gap as real;
      if last {
        // The last column takes the remaining width.
        width := box.x as real + box.width as real - x;
      }
    }
  }

  ghost function Fractions(columns: seq<Column>): (fs: seq<real>)
    reads columns`widthFraction
    ensures |fs| == |columns| && forall i :: 0 <= i < |fs| ==> fs[i] == columns[i].widthFraction
  {
    if columns == [] then []
    else Fractions(columns[..|columns| - 1]) + [columns[|columns| - 1].widthFraction]
  }

  /** The columns show the layout of the fractions in the box. */
  ghost predicate Arranged(columns: seq<Column>, fs: seq<real>, box: Box, gap: int)
    requires |fs| == |columns|
    reads columns
  {
    var content := ContentWidth(|fs|, box, gap);
    forall i :: 0 <= i < |columns| ==>
      && columns[i].widthFraction == fs[i]
      && columns[i].childTotalWidth == content as real
      && columns[i].x == Left(fs, box, gap, content, i) as real
      && columns[i].width == ColumnWidth(fs, box, gap, i) as real
      && columns[i].isFirstChild == (i == 0)
      && columns[i].isLastChild == (i == |columns| - 1)
  }

  /** If no fraction was negative, the columns that had none now have an equal part of the whole each. */
  ghost predicate NewGetEqualParts(columns: seq<Column>, was: seq<real>)
    requires |was| == |columns|
    reads columns`widthFraction
  {
    (forall k :: 0 <= k < |was| ==> was[k] >= 0.0) ==>
      forall k :: 0 <= k < |was| && was[k] == 0.0 ==> IsEqualPart(columns[k].widthFraction, |was|)
  }

  /** The columns and the gaps between them cover the box exactly, left to right. */
  ghost predicate Covers(columns: seq<Column>, box: Box, gap: int)
    requires columns != []
    reads columns`x, columns`width
  {
    var last := columns[|columns| - 1];
    && columns[0].x == box.x as real
    && (forall i :: 0 <= i < |columns| - 1 ==> columns[i + 1].x == columns[i].x + columns[i].width + gap as real)
    && last.x + last.width == (box.x + box.width) as real
  }

  lemma TilesExactly(columns: seq<Column>, fs: seq<real>, box: Box, gap: int)
    requires columns != [] && |fs| == |columns| && Arranged(columns, fs, box, gap)
    ensures Covers(columns, box, gap)
  {
    hide PixelWidth, Left, ColumnWidth;
    var content := ContentWidth(|fs|, box, gap);
    LeftStarts(fs, box, gap, content);
    forall i | 0 <= i < |columns|
      ensures i < |columns| - 1 ==> columns[i + 1].x == columns[i].x + columns[i].width + gap as real
      ensures i == |columns| - 1 ==> columns[i].x + columns[i].width == (box.x + box.width) as real
    {
      LeftGoesOn(fs, box, gap, content, i);
    }
  }

  lemma OneMore(fs: seq<real>, j: nat)
    requires j < |fs|
    ensures Sum(fs[..j + 1]) == Sum(fs[..j]) + fs[j]
    ensures CountNew(fs[..j + 1]) == CountNew(fs[..j]) + if fs[j] <= 0.0 then 1 else 0
    ensures Sum(fs[..0]) == 0.0 && CountNew(fs[..0]) == 0
  {
    assert fs[..j + 1][..j] == fs[..j];
  }

  /** How many columns have no size yet, and how much the sizes come to. */
  method CountColumns(columns: seq<Column>) returns (unsized: nat, current: real)
    requires columns != []
    ensures unsized == CountNew(Fractions(columns)) && current == Sum(Fractions(columns))
  {
    hide Sum, CountNew;
    ghost var fs := Fractions(columns);
    OneMore(fs, 0);
    unsized, current := 0, 0.0;
    for j := 0 to |columns|
      invariant current == Sum(fs[..j]) && unsized == CountNew(fs[..j])
    {
      OneMore(fs, j);
      current := current + columns[j].widthFraction;
      if columns[j].widthFraction <= 0.0 {
        unsized := unsized + 1;
      }
    }
    assert fs[..|fs|] == fs;
  }

  /** Gives unsized columns their share and adds up. */
  method SizeColumns(columns: seq<Column>, unsized: nat, current: real) returns (total: real)
    requires NoDuplicates(columns) && columns != []
    requires unsized == CountNew(Fractions(columns)) && current == Sum(Fractions(columns))
    modifies columns`widthFraction
    ensures Fractions(columns) == Sizes(old(Fractions(columns))) && total == Sum(Sizes(old(Fractions(columns))))
  {
    hide Sum, CountNew, Fractions, Sizes;
    ghost var fs := Fractions(columns);
    ghost var sizes := Sizes(fs);
    SizesAre(fs);
    OneMore(sizes, 0);
    total := 0.0;
    for j := 0 to |columns|
      invariant forall k :: 0 <= k < |columns| ==> columns[k].widthFraction == if k < j then sizes[k] else fs[k]
      invariant total == Sum(sizes[..j])
    {
      OneMore(sizes, j);
      if columns[j].widthFraction <= 0.0 {
        if current <= 0.0 {
          columns[j].widthFraction := 1.0;
        } else if |columns| > unsized {
          columns[j].widthFraction := current / (|columns| - unsized) as real;
        } else {
          columns[j].widthFraction := current;
        }
      }
      total := total + columns[j].widthFraction;
    }
    assert sizes[..|fs|] == sizes;
    assert Fractions(columns) == sizes;
  }

  lemma SizesAre(fs: seq<real>)
    ensures forall i :: 0 <= i < |fs| ==> Sizes(fs)[i] == Sized(fs[i], Share(Sum(fs), |fs|, CountNew(fs)))
  {
  }

  /** The first and last column are marked as such. */
  ghost predicate EndsMarked(columns: seq<Column>)
    reads columns`isFirstChild, columns`isLastChild
  {
    forall k :: 0 <= k < |columns| ==>
      columns[k].isFirstChild == (k == 0) && columns[k].isLastChild == (k == |columns| - 1)
  }

  method MarkEnds(columns: seq<Column>)
    requires NoDuplicates(columns) && columns != []
    modifies columns`isFirstChild, columns`isLastChild
    ensures EndsMarked(columns)
  {
    for j := 0 to |columns|
      invariant forall k :: 0 <= k < j ==>
        columns[k].isFirstChild == (k == 0) && columns[k].isLastChild == (k == |columns| - 1)
    {
      columns[j].isFirstChild := columns[j] == columns[0];
      columns[j].isLastChild := columns[j] == columns[|columns| - 1];
    }
  }

  method Normalise(columns: seq<Column>, total: real)
    requires NoDuplicates(columns) && total != 0.0
    modifies columns`widthFraction
    ensures Fractions(columns) == Scaled(old(Fractions(columns)), total)
  {
    hide Fractions;
    ghost var sizes := Fractions(columns);
    for j := 0 to |columns|
      invariant forall k :: 0 <= k < |columns| ==>
        columns[k].widthFraction == if k < j then sizes[k] / total else sizes[k]
    {
      columns[j].widthFraction := columns[j].widthFraction / total;
    }
  }

  /** The loops, for an output that has columns. */
  method LayOut(columns: seq<Column>, box: Box, gap: int)
    requires NoDuplicates(columns) && columns != []
    modifies columns
    ensures Arranged(columns, Normalised(old(Fractions(columns))), box, gap)
  {
    hide Sum, CountNew, Sizes, Scaled, Arranged, EndsMarked, Fractions, Normalised;
    ghost var fs := Fractions(columns);
    var unsized, current := CountColumns(columns);
    var total := SizeColumns(columns, unsized, current);
    NormalisedIs(fs);
    MarkEnds(columns);
    Normalise(columns, total);
    PlaceColumns(columns, Normalised(fs), box, gap);
  }

  method ArrangeTiling(columns: seq<Column>, box: Box, gap: int)
    requires NoDuplicates(columns)
    modifies columns
    ensures columns != [] ==> Arranged(columns, Normalised(old(Fractions(columns))), box, gap)
    ensures columns != [] ==> Covers(columns, box, gap)
    ensures columns != [] ==>
              var content := ContentWidth(|columns|, box, gap);
              (forall i :: 0 <= i < |columns| ==> columns[i].width >= 0.0)
              <==> Fits(Normalised(old(Fractions(columns))), content)
    ensures NewGetEqualParts(columns, old(Fractions(columns)))
  {
    if columns == [] {
      return;
    }
    hide Sum, Arranged, Fractions, Normalised, Covers, Fits, NewGetEqualParts;
    ghost var fs := Fractions(columns);
    LayOut(columns, box, gap);
    TilesExactly(columns, Normalised(fs), box, gap);
    NormalisedSumsToOne(fs);
    NonNegativeArranged(columns, Normalised(fs), box, gap);
    NewColumnsArranged(columns, fs, box, gap);
  }

  lemma NewColumnsArranged(columns: seq<Column>, fs: seq<real>, box: Box, gap: int)
    requires columns != [] && |fs| == |columns| && Arranged(columns, Normalised(fs), box, gap)
    ensures NewGetEqualParts(columns, fs)
  {
    hide Normalised, Left, ColumnWidth;
    if forall k :: 0 <= k < |fs| ==> fs[k] >= 0.0 {
      forall k | 0 <= k < |fs| && fs[k] == 0.0
        ensures IsEqualPart(columns[k].widthFraction, |columns|)
      {
        NewColumnsShareEqually(fs, k);
      }
    }
  }

  lemma NonNegativeArranged(columns: seq<Column>, fs: seq<real>, box: Box, gap: int)
    requires columns != [] && |fs| == |columns| && AllPositive(fs) && Arranged(columns, fs, box, gap)
    ensures (forall i :: 0 <= i < |columns| ==> columns[i].width >= 0.0)
            <==> Fits(fs, ContentWidth(|columns|, box, gap))
  {
    hide ColumnWidth, Fits;
    NonNegativeIff(fs, box, gap);
  }

  /** The last loop: positions and widths. */
  method PlaceColumns(columns: seq<Column>, ghost fs: seq<real>, box: Box, gap: int)
    requires NoDuplicates(columns) && columns != [] && Fractions(columns) == fs
    requires EndsMarked(columns)
    modifies columns`childTotalWidth, columns`x, columns`width
    ensures Arranged(columns, fs, box, gap)
  {
    hide PixelWidth, Fractions, Left, ColumnWidth, ContentWidth;
    var content := ContentWidth(|columns|, box, gap);
    var columnX := box.x as real;
    LeftStarts(fs, box, gap, content);
    for j := 0 to |columns|
      invariant columnX == Left(fs, box, gap, content, j) as real
      invariant forall k :: 0 <= k < j ==>
        && columns[k].childTotalWidth == content as real
        && columns[k].x == Left(fs, box, gap, content, k) as real
        && columns[k].width == ColumnWidth(fs, box, gap, k) as real
    {
      LeftGoesOn(fs, box, gap, content, j);
      columnX := columns[j].Place(columnX, content, j == |columns| - 1, box, gap);
    }
  }
}
