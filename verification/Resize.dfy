/** window_resize_tiled_horizontal of src/commands/resize.c, and what it comes to once columns are arranged again. */
module Resize {
  import opened Seqs
  import opened Tiling

  /** A column of the resized window: which neighbours give way, and by how much in all. */
  datatype Request = Request(column: nat, before: bool, after: bool, amount: int)

  /** The request as the columns allow it: a neighbour takes part if its edge is named and it exists. */
  function Make(n: nat, column: nat, left: bool, right: bool, amount: int): Request
    requires column < n
  {
    Request(column, left && column > 0, right && column < n - 1, amount)
  }

  /** ceil(amount / 2) */
  function HalfUp(amount: int): int { (amount + 1) / 2 }

  function BeforeAmount(r: Request): int {
    if r.before && r.after then HalfUp(r.amount) else r.amount
  }

  function AfterAmount(r: Request): int {
    if r.before && r.after then r.amount - HalfUp(r.amount) else r.amount
  }

  /** By how much column k gets wider. */
  function Delta(r: Request, k: nat): int {
    if k == r.column then r.amount
    else if r.before && k + 1 == r.column then -BeforeAmount(r)
    else if r.after && k == r.column + 1 then -AfterAmount(r)
    else 0
  }

  /** Some neighbour gives way, and no column involved falls below the least sane width. */
  predicate Accepted(r: Request, widths: seq<real>)
    requires r.column < |widths| && (r.before ==> r.column > 0) && (r.after ==> r.column < |widths| - 1)
  {
    && (r.before || r.after)
    && widths[r.column] + r.amount as real >= MIN_SANE_W
    && (r.before ==> widths[r.column - 1] - BeforeAmount(r) as real >= MIN_SANE_W)
    && (r.after ==> widths[r.column + 1] - AfterAmount(r) as real >= MIN_SANE_W)
  }

  // ---------------------------------------------------------------------
  // Who gives way
  // ---------------------------------------------------------------------

  /** The amount in two parts that are equal, or one apart with the first part larger. */
  ghost predicate Halves(p: int, q: int, amount: int) { p + q == amount && q <= p <= q + 1 }

  /** The left edge is named, and there is a column before; the right edge is named, and there is one behind. */
  predicate TakesBefore(column: nat, left: bool) { left && column > 0 }

  predicate TakesBehind(n: nat, column: nat, right: bool) { right && column + 1 < n }

  /** A neighbour on a named side exists, and no column involved gets below the least sane width. */
  ghost predicate IsAllowed(was: seq<real>, column: nat, left: bool, right: bool, amount: int)
    requires column < |was|
  {
    var before, behind := TakesBefore(column, left), TakesBehind(|was|, column, right);
    && (before || behind) && was[column] + amount as real >= 100.0
    && (before && !behind ==> was[column - 1] - amount as real >= 100.0)
    && (behind && !before ==> was[column + 1] - amount as real >= 100.0)
    && (before && behind ==>
          exists p, q :: Halves(p, q, amount)
                         && was[column - 1] - p as real >= 100.0 && was[column + 1] - q as real >= 100.0)
  }

  /**
   * The column is wider by the amount. With one neighbour taking part that one
   * is narrower by the amount; with both, the one before is narrower by half of
   * it, rounded up, and the one behind by the rest. No other column changed.
   */
  ghost predicate GaveWay(was: seq<real>, now: seq<real>, column: nat, left: bool, right: bool, amount: int)
    requires column < |was| == |now|
  {
    var before, behind := TakesBefore(column, left), TakesBehind(|was|, column, right);
    && now[column] == was[column] + amount as real
    && (before && !behind ==> now[column - 1] == was[column - 1] - amount as real)
    && (behind && !before ==> now[column + 1] == was[column + 1] - amount as real)
    && (before && behind ==>
          exists p, q :: Halves(p, q, amount)
                         && now[column - 1] == was[column - 1] - p as real && now[column + 1] == was[column + 1] - q as real)
    && forall k :: 0 <= k < |was| && k != column && !(before && k == column - 1) && !(behind && k == column + 1) ==>
         now[k] == was[k]
  }

  lemma HalfUpHalves(amount: int)
    ensures Halves(HalfUp(amount), amount - HalfUp(amount), amount)
  {
  }

  lemma HalvesAre(p: int, q: int, amount: int)
    requires Halves(p, q, amount)
    ensures p == HalfUp(amount) && q == amount - HalfUp(amount)
  {
  }

  /** A request is accepted if and only if the command may be carried out as it was given. */
  lemma AcceptedIff(was: seq<real>, column: nat, left: bool, right: bool, amount: int)
    requires column < |was|
    ensures Accepted(Make(|was|, column, left, right, amount), was) <==> IsAllowed(was, column, left, right, amount)
  {
    HalfUpHalves(amount);
    hide Halves, HalfUp;
    if IsAllowed(was, column, left, right, amount) && TakesBefore(column, left) && TakesBehind(|was|, column, right) {
      var p, q :| Halves(p, q, amount) && was[column - 1] - p as real >= 100.0 && was[column + 1] - q as real >= 100.0;
      HalvesAre(p, q, amount);
    }
  }

  /** The deltas of the request take from the neighbours on the named sides, and from no others. */
  lemma NeighboursGiveWay(was: seq<real>, now: seq<real>, column: nat, left: bool, right: bool, amount: int)
    requires column < |was| == |now|
    requires forall k :: 0 <= k < |was| ==> now[k] == was[k] + Delta(Make(|was|, column, left, right, amount), k) as real
    ensures GaveWay(was, now, column, left, right, amount)
  {
    HalfUpHalves(amount);
    hide Halves, HalfUp;
  }

  // ---------------------------------------------------------------------
  // Whole pixels survive a round trip through fractions
  // ---------------------------------------------------------------------

  function Total(ws: seq<int>): int {
    if ws == [] then 0 else Total(ws[..|ws| - 1]) + ws[|ws| - 1]
  }

  function AsFractions(ws: seq<int>, content: int): (fs: seq<real>)
    requires content != 0
    ensures |fs| == |ws| && forall k :: 0 <= k < |ws| ==> fs[k] == ws[k] as real / content as real
  {
    seq(|ws|, k requires 0 <= k < |ws| => ws[k] as real / content as real)
  }

  lemma QuotientTimes(a: real, c: real)
    requires c != 0.0
    ensures a / c * c == a
  {
  }

  lemma SameQuotient(a: real, b: real, c: real, d: real)
    requires a == b && c == d && c != 0.0
    ensures a / c == b / d
  {
  }

  lemma PixelsSurvive(w: int, content: int)
    requires content != 0
    ensures PixelWidth(w as real / content as real, content) == w
  {
    QuotientTimes(w as real, content as real);
    RoundExact(w);
  }

  lemma {:induction false} FractionsSum(ws: seq<int>, content: int)
    requires content != 0
    ensures Sum(AsFractions(ws, content)) == Total(ws) as real / content as real
  {
    if ws != [] {
      var n := |ws| - 1;
      FractionsSum(ws[..n], content);
      assert AsFractions(ws, content)[..n] == AsFractions(ws[..n], content);
      DivideSum(Total(ws[..n]) as real, ws[n] as real, content as real);
    }
  }

  lemma {:induction false} LeftOfPixels(ws: seq<int>, box: Box, gap: int, content: int, i: nat)
    requires content != 0 && i <= |ws|
    ensures Left(AsFractions(ws, content), box, gap, content, i) == box.x + Total(ws[..i]) + gap * i
  {
    hide PixelWidth;
    if i > 0 {
      LeftOfPixels(ws, box, gap, content, i - 1);
      PixelsSurvive(ws[i - 1], content);
      assert ws[..i][..i - 1] == ws[..i - 1];
      assert gap * i == gap * (i - 1) + gap;
    }
  }

  /** Columns of whole widths that fill the box come out of an arrange at exactly those widths. */
  lemma ArrangeReproducesPixels(ws: seq<int>, box: Box, gap: int)
    requires ws != [] && Total(ws) == ContentWidth(|ws|, box, gap)
    requires forall k :: 0 <= k < |ws| ==> ws[k] > 0
    ensures Total(ws) > 0
    ensures var fs := AsFractions(ws, Total(ws));
            && AllPositive(fs) && Sum(fs) == 1.0 && Normalised(fs) == fs
            && forall k :: 0 <= k < |ws| ==> ColumnWidth(fs, box, gap, k) == ws[k]
  {
    var content := Total(ws);
    TotalPositive(ws);
    var fs := AsFractions(ws, content);
    FractionsSum(ws, content);
    SelfQuotient(content as real);
    forall k | 0 <= k < |ws| ensures fs[k] > 0.0 {
      DivisionPositive(ws[k] as real, content as real);
    }
    NormalisedIdempotent(fs);
    forall k | 0 <= k < |ws| ensures ColumnWidth(fs, box, gap, k) == ws[k] {
      PixelsSurvive(ws[k], content);
      LeftOfPixels(ws, box, gap, content, k);
      if k == |ws| - 1 {
        assert ws[..k + 1] == ws;
      }
    }
  }

  lemma {:induction false} TotalPositive(ws: seq<int>)
    requires forall k :: 0 <= k < |ws| ==> ws[k] > 0
    ensures Total(ws) >= 0 && (ws != [] ==> Total(ws) > 0)
  {
    if ws != [] {
      TotalPositive(ws[..|ws| - 1]);
    }
  }

  /** The widths of arranged columns. */
  function Widths(fs: seq<real>, box: Box, gap: int): (ws: seq<int>)
    ensures |ws| == |fs| && forall k :: 0 <= k < |fs| ==> ws[k] == ColumnWidth(fs, box, gap, k)
  {
    seq(|fs|, k requires 0 <= k < |fs| => ColumnWidth(fs, box, gap, k))
  }

  lemma {:induction false} LeftAddsWidths(fs: seq<real>, box: Box, gap: int, i: nat)
    requires i < |fs|
    ensures Left(fs, box, gap, ContentWidth(|fs|, box, gap), i)
         == box.x + Total(Widths(fs, box, gap)[..i]) + gap * i
  {
    hide PixelWidth;
    if i > 0 {
      LeftAddsWidths(fs, box, gap, i - 1);
      var ws := Widths(fs, box, gap);
      assert ws[..i][..i - 1] == ws[..i - 1];
      assert gap * i == gap * (i - 1) + gap;
    }
  }

  lemma WidthsFillContent(fs: seq<real>, box: Box, gap: int)
    requires fs != []
    ensures Total(Widths(fs, box, gap)) == ContentWidth(|fs|, box, gap)
  {
    var n := |fs| - 1;
    LeftAddsWidths(fs, box, gap, n);
  }

  lemma ContentPositive(fs: seq<real>, box: Box, gap: int)
    requires fs != [] && forall k :: 0 <= k < |fs| ==> ColumnWidth(fs, box, gap, k) > 0
    ensures ContentWidth(|fs|, box, gap) > 0
  {
    WidthsFillContent(fs, box, gap);
    TotalPositive(Widths(fs, box, gap));
  }

  // ---------------------------------------------------------------------
  // Resizing
  // ---------------------------------------------------------------------

  function Changed(ws: seq<int>, r: Request): (ws': seq<int>)
    ensures |ws'| == |ws| && forall k :: 0 <= k < |ws| ==> ws'[k] == ws[k] + Delta(r, k)
  {
    seq(|ws|, k requires 0 <= k < |ws| => ws[k] + Delta(r, k))
  }

  function DeltaTotal(r: Request, n: nat): int {
    if n == 0 then 0 else DeltaTotal(r, n - 1) + Delta(r, n - 1)
  }

  lemma {:induction false} ChangedTotal(ws: seq<int>, r: Request, n: nat)
    requires n <= |ws|
    ensures Total(Changed(ws, r)[..n]) == Total(ws[..n]) + DeltaTotal(r, n)
  {
    if n > 0 {
      ChangedTotal(ws, r, n - 1);
      assert ws[..n][..n - 1] == ws[..n - 1];
      assert Changed(ws, r)[..n][..n - 1] == Changed(ws, r)[..n - 1];
    }
  }

  /** What one column gains its neighbours lose. */
  lemma {:induction false} DeltasCancel(r: Request, n: nat)
    requires r.before || r.after
    requires r.before ==> r.column > 0
    ensures n + 1 <= r.column ==> DeltaTotal(r, n) == 0
    ensures n == r.column ==> DeltaTotal(r, n) == if r.before then -BeforeAmount(r) else 0
    ensures n == r.column + 1 ==> DeltaTotal(r, n) == if r.after then AfterAmount(r) else 0
    ensures n >= r.column + 2 ==> DeltaTotal(r, n) == 0
  {
    if n > 0 {
      DeltasCancel(r, n - 1);
    }
  }

  /**
   * From an arranged state with all widths positive, an accepted resize
   * followed by an arrange moves every column by exactly its delta.
   */
  lemma ResizeIsPixelExact(fs: seq<real>, box: Box, gap: int, r: Request, widths: seq<real>)
    requires r.column < |fs| == |widths| && (r.before ==> r.column > 0) && (r.after ==> r.column < |fs| - 1)
    requires forall k :: 0 <= k < |fs| ==> widths[k] == ColumnWidth(fs, box, gap, k) as real > 0.0
    requires Accepted(r, widths)
    ensures ContentWidth(|fs|, box, gap) > 0
    ensures var gs := AsFractions(Changed(Widths(fs, box, gap), r), ContentWidth(|fs|, box, gap));
            && AllPositive(gs) && Sum(gs) == 1.0 && Normalised(gs) == gs
            && forall k :: 0 <= k < |fs| ==> ColumnWidth(gs, box, gap, k) == ColumnWidth(fs, box, gap, k) + Delta(r, k)
  {
    hide ColumnWidth, Left, Normalised, Sum, Total, ContentWidth, DeltaTotal;
    var ws := Widths(fs, box, gap);
    var ws' := Changed(ws, r);
    WidthsFillContent(fs, box, gap);
    ChangedTotal(ws, r, |ws|);
    assert ws[..|ws|] == ws && ws'[..|ws|] == ws';
    DeltasCancel(r, |ws|);
    TotalPositive(ws);
    ChangedPositive(ws, r, widths);
    hide Delta, Accepted;
    ArrangeReproducesPixels(ws', box, gap);
  }

  lemma ChangedPositive(ws: seq<int>, r: Request, widths: seq<real>)
    requires r.column < |ws| == |widths| && (r.before ==> r.column > 0) && (r.after ==> r.column < |ws| - 1)
    requires forall k :: 0 <= k < |ws| ==> widths[k] == ws[k] as real > 0.0
    requires Accepted(r, widths)
    ensures forall k :: 0 <= k < |ws| ==> Changed(ws, r)[k] > 0
  {
    hide HalfUp;
  }

  ghost function PendingWidths(columns: seq<Column>): (ws: seq<real>)
    reads columns`width
    ensures |ws| == |columns| && forall k :: 0 <= k < |ws| ==> ws[k] == columns[k].width
  {
    if columns == [] then [] else PendingWidths(columns[..|columns| - 1]) + [columns[|columns| - 1].width]
  }

  /** Whether the resize is allowed, and how it is shared out. */
  method Plan(columns: seq<Column>, column: nat, left: bool, right: bool, amount: int)
    returns (accepted: bool, r: Request)
    requires column < |columns|
    ensures r == Make(|columns|, column, left, right, amount)
    ensures accepted == Accepted(r, PendingWidths(columns))
  {
    hide PendingWidths;
    r := Make(|columns|, column, left, right, amount);
    if !r.before && !r.after {
      return false, r;
    }
    if columns[column].width + (amount as real) < MIN_SANE_W {
      return false, r;
    }
    if r.before && columns[column - 1].width - (BeforeAmount(r) as real) < MIN_SANE_W {
      return false, r;
    }
    if r.after && columns[column + 1].width - (AfterAmount(r) as real) < MIN_SANE_W {
      return false, r;
    }
    return true, r;
  }

  /** Snaps every fraction to whole pixels. */
  method SnapToPixels(columns: seq<Column>)
    requires NoDuplicates(columns)
    requires forall k :: 0 <= k < |columns| ==> columns[k].childTotalWidth != 0.0
    modifies columns`widthFraction
    ensures forall k :: 0 <= k < |columns| ==> columns[k].widthFraction == columns[k].width / columns[k].childTotalWidth
  {
    for i := 0 to |columns|
      invariant forall k :: 0 <= k < i ==> columns[k].widthFraction == columns[k].width / columns[k].childTotalWidth
    {
      columns[i].widthFraction := columns[i].width / columns[i].childTotalWidth;
    }
  }

  /** Moves the amounts between the column and its neighbours. */
  method ShiftAmounts(columns: seq<Column>, r: Request)
    requires NoDuplicates(columns) && r.column < |columns|
    requires (r.before ==> r.column > 0) && (r.after ==> r.column < |columns| - 1)
    requires forall k :: 0 <= k < |columns| ==> columns[k].childTotalWidth != 0.0
    modifies columns`widthFraction
    ensures forall k :: 0 <= k < |columns| ==>
              (columns[k].widthFraction
               == old(columns[k].widthFraction) + Delta(r, k) as real / columns[k].childTotalWidth)
  {
    columns[r.column].Widen(r.amount);
    if r.before {
      columns[r.column - 1].Widen(-BeforeAmount(r));
    }
    if r.after {
      columns[r.column + 1].Widen(-AfterAmount(r));
    }
  }

  /** Snaps fractions to whole pixels and shifts the amounts, or leaves all as it was. */
  method WindowResizeTiledHorizontal(columns: seq<Column>, column: nat, left: bool, right: bool, amount: int)
    returns (accepted: bool)
    requires NoDuplicates(columns) && column < |columns|
    requires forall k :: 0 <= k < |columns| ==> columns[k].childTotalWidth != 0.0
    modifies columns`widthFraction
    ensures accepted == Accepted(Make(|columns|, column, left, right, amount), PendingWidths(columns))
    ensures accepted <==> IsAllowed(PendingWidths(columns), column, left, right, amount)
    ensures forall k :: 0 <= k < |columns| ==>
              columns[k].widthFraction ==
              if accepted then
                (columns[k].width + Delta(Make(|columns|, column, left, right, amount), k) as real)
                / columns[k].childTotalWidth
              else old(columns[k].widthFraction)
  {
    hide PendingWidths, Delta, IsAllowed;
    AcceptedIff(PendingWidths(columns), column, left, right, amount);
    var r;
    accepted, r := Plan(columns, column, left, right, amount);
    if accepted {
      SnapToPixels(columns);
      ShiftAmounts(columns, r);
      forall k | 0 <= k < |columns| {
        DivideSum(columns[k].width, Delta(r, k) as real, columns[k].childTotalWidth);
      }
    }
  }

  /** The resize and the arrange it leads to: every column moves by its delta. */
  method ResizeByDeltas(columns: seq<Column>, ghost fs: seq<real>, box: Box, gap: int, column: nat,
                        left: bool, right: bool, amount: int)
    returns (accepted: bool, ghost gs: seq<real>)
    requires NoDuplicates(columns) && column < |columns| && |fs| == |columns| && Arranged(columns, fs, box, gap)
    requires AllPositive(fs) && Sum(fs) == 1.0
    requires forall k :: 0 <= k < |columns| ==> columns[k].width > 0.0
    modifies columns
    ensures accepted == Accepted(Make(|columns|, column, left, right, amount), old(PendingWidths(columns)))
    ensures |gs| == |columns| && Arranged(columns, gs, box, gap) && AllPositive(gs) && Sum(gs) == 1.0
    ensures forall k :: 0 <= k < |columns| ==>
              columns[k].width == old(columns[k].width) +
                if accepted then Delta(Make(|columns|, column, left, right, amount), k) as real else 0.0
  {
    hide PendingWidths, Delta, Fractions, Normalised, Sum, Left, ColumnWidth, ContentWidth, AllPositive;
    hide NewGetEqualParts, Covers, Fits, IsAllowed;
    ContentPositive(fs, box, gap);
    accepted := WindowResizeTiledHorizontal(columns, column, left, right, amount);
    gs := AfterResize(columns, fs, box, gap, Make(|columns|, column, left, right, amount), accepted);
    ArrangeTiling(columns, box, gap);
  }

  /**
   * A resize command and the arrange it leads to, on columns that show their
   * layout: refused, no width changes; accepted, the neighbours on the named
   * sides give way by exactly the amount, and the fractions still sum to one.
   */
  method ResizeAndArrange(columns: seq<Column>, ghost fs: seq<real>, box: Box, gap: int, column: nat,
                          left: bool, right: bool, amount: int)
    returns (accepted: bool, ghost gs: seq<real>)
    requires NoDuplicates(columns) && column < |columns| && |fs| == |columns| && Arranged(columns, fs, box, gap)
    requires AllPositive(fs) && Sum(fs) == 1.0
    requires forall k :: 0 <= k < |columns| ==> columns[k].width > 0.0
    modifies columns
    ensures accepted <==> IsAllowed(old(PendingWidths(columns)), column, left, right, amount)
    ensures if accepted then GaveWay(old(PendingWidths(columns)), PendingWidths(columns), column, left, right, amount)
            else PendingWidths(columns) == old(PendingWidths(columns))
    ensures |gs| == |columns| && Arranged(columns, gs, box, gap) && AllPositive(gs) && Sum(gs) == 1.0
  {
    hide PendingWidths, Delta, Make, Accepted, Sum, AllPositive, Arranged, IsAllowed, GaveWay;
    ghost var was := PendingWidths(columns);
    AcceptedIff(was, column, left, right, amount);
    accepted, gs := ResizeByDeltas(columns, fs, box, gap, column, left, right, amount);
    if accepted {
      NeighboursGiveWay(was, PendingWidths(columns), column, left, right, amount);
    }
  }

  /** The fractions between the resize and the arrange, and the layout they stand for. */
  lemma AfterResize(columns: seq<Column>, fs: seq<real>, box: Box, gap: int, r: Request, accepted: bool)
    returns (gs: seq<real>)
    requires |fs| == |columns| && AllPositive(fs) && Sum(fs) == 1.0 && ContentWidth(|fs|, box, gap) != 0
    requires r.column < |fs| && (r.before ==> r.column > 0) && (r.after ==> r.column < |fs| - 1)
    requires forall k :: 0 <= k < |columns| ==>
      && columns[k].childTotalWidth == ContentWidth(|fs|, box, gap) as real
      && columns[k].width == ColumnWidth(fs, box, gap, k) as real > 0.0
    requires accepted == Accepted(r, PendingWidths(columns))
    requires forall k :: 0 <= k < |columns| ==>
      (columns[k].widthFraction ==
       if accepted then (columns[k].width + Delta(r, k) as real) / columns[k].childTotalWidth else fs[k])
    ensures gs == Fractions(columns) && |gs| == |fs|
    ensures AllPositive(gs) && Sum(gs) == 1.0 && Normalised(gs) == gs
    ensures forall k :: 0 <= k < |fs| ==>
      ColumnWidth(gs, box, gap, k) == ColumnWidth(fs, box, gap, k) + if accepted then Delta(r, k) else 0
  {
    hide PendingWidths, Delta, Fractions, Normalised, Sum, Left, ColumnWidth, ContentWidth, AllPositive;
    if accepted {
      ResizeIsPixelExact(fs, box, gap, r, PendingWidths(columns));
      ResizedFractions(columns, fs, box, gap, r);
      gs := AsFractions(Changed(Widths(fs, box, gap), r), ContentWidth(|fs|, box, gap));
    } else {
      gs := fs;
      NormalisedIdempotent(fs);
      assert Fractions(columns) == gs;
    }
  }

  /** The fractions an accepted resize leaves. */
  lemma ResizedFractions(columns: seq<Column>, fs: seq<real>, box: Box, gap: int, r: Request)
    requires |fs| == |columns| && ContentWidth(|fs|, box, gap) != 0
    requires forall k :: 0 <= k < |columns| ==>
      && columns[k].childTotalWidth == ContentWidth(|fs|, box, gap) as real
      && columns[k].width == ColumnWidth(fs, box, gap, k) as real
      && columns[k].widthFraction == (columns[k].width + Delta(r, k) as real) / columns[k].childTotalWidth
    ensures Fractions(columns) == AsFractions(Changed(Widths(fs, box, gap), r), ContentWidth(|fs|, box, gap))
  {
    hide Delta, Fractions, Left, ColumnWidth, ContentWidth;
    var content := ContentWidth(|fs|, box, gap);
    var gs := AsFractions(Changed(Widths(fs, box, gap), r), content);
    forall k | 0 <= k < |columns| ensures columns[k].widthFraction == gs[k] {
      SameQuotient(columns[k].width + Delta(r, k) as real, (ColumnWidth(fs, box, gap, k) + Delta(r, k)) as real,
                   columns[k].childTotalWidth, content as real);
    }
  }
}
