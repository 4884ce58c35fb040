/**
 * How a column stacks its windows and where it shows the preview of a window
 * that is dragged over it: column_arrange_split and column_arrange_stacked of
 * src/tree/column.c, over the reals.
 */
module ColumnLayout {
  import opened Seqs
  import opened Tiling

  const PREVIEW_TITLEBAR_HEIGHT: real := 30.0

  /** A child as the loop sees it: how tall it is to be, unless it is fullscreen and skipped. */
  datatype Slot = Slot(fullscreen: bool, height: real)

  /** Where the column is, and where the dragged window's anchor should come to lie. */
  datatype Aim = Aim(y: real, baseline: real, anchor: real)

  function Abs(v: real): real { if v < 0.0 then -v else v }

  /** How far the baseline of a preview that starts top below the column's edge is from the anchor. */
  function Distance(aim: Aim, top: int): real { Abs(aim.y + top as real + aim.baseline - aim.anchor) }

  /** The child before which the loop inserts the preview: the first after which the distance grows. */
  function InsertAt(slots: seq<Slot>, aim: Aim, i: nat, top: int, delta: real): (g: nat)
    requires i <= |slots|
    ensures i <= g <= |slots|
    decreases |slots| - i
  {
    if i == |slots| then i
    else if slots[i].fullscreen then InsertAt(slots, aim, i + 1, top, delta)
    else
      var next := Distance(aim, Round(top as real + slots[i].height));
      if next > delta then i else InsertAt(slots, aim, i + 1, top + Round(slots[i].height), next)
  }

  function PreviewIndex(slots: seq<Slot>, aim: Aim): (g: nat)
    ensures g <= |slots|
  {
    InsertAt(slots, aim, 0, 0, Distance(aim, 0))
  }

  // ---------------------------------------------------------------------
  // The stack in whole pixels
  // ---------------------------------------------------------------------

  /** The pixels that the visible children before i take. */
  function Top(slots: seq<Slot>, i: nat): int
    requires i <= |slots|
  {
    if i == 0 then 0
    else Top(slots, i - 1) + if slots[i - 1].fullscreen then 0 else Round(slots[i - 1].height)
  }

  /** The offset of child i when a preview of height ph sits before child g. */
  function Offset(slots: seq<Slot>, g: int, ph: real, i: nat): real
    requires i <= |slots|
  {
    Top(slots, i) as real + if 0 <= g <= i then ph else 0.0
  }

  /** Where child i ends up below the column's edge. */
  function ChildTop(slots: seq<Slot>, g: int, ph: real, i: nat): int
    requires i < |slots|
  {
    Round(Offset(slots, g, ph, i))
  }

  ghost predicate NonNegative(slots: seq<Slot>) {
    forall i :: 0 <= i < |slots| && !slots[i].fullscreen ==> slots[i].height >= 0.0
  }

  lemma RoundShifts(n: int, h: real)
    requires n >= 0 && h >= 0.0
    ensures Round(n as real + h) == n + Round(h) && Round(h) >= 0
  {
  }

  lemma {:induction false} TopGrows(slots: seq<Slot>, i: nat, j: nat)
    requires NonNegative(slots) && i <= j <= |slots|
    ensures 0 <= Top(slots, i) <= Top(slots, j)
    decreases j
  {
    if j > 0 {
      if !slots[j - 1].fullscreen {
        RoundShifts(0, slots[j - 1].height);
      }
      TopGrows(slots, if i == j then j - 1 else i, j - 1);
    }
  }

  /**
   * Visible children and preview form one contiguous stack: the preview starts
   * where the children before it end, each child starts where what is before it
   * ends, and the whole takes exactly the sum of the parts.
   */
  lemma StackIsContiguous(slots: seq<Slot>, g: nat, ph: real, i: nat)
    requires NonNegative(slots) && ph >= 0.0 && i < |slots|
    ensures ChildTop(slots, g, ph, i) == Top(slots, i) + if g <= i then Round(ph) else 0
    ensures i + 1 < |slots| && g != i + 1 ==>
              ChildTop(slots, g, ph, i + 1)
              == ChildTop(slots, g, ph, i) + if slots[i].fullscreen then 0 else Round(slots[i].height)
    ensures i + 1 == g && !slots[i].fullscreen ==>
              Top(slots, g) == ChildTop(slots, g, ph, i) + Round(slots[i].height)
  {
    TopGrows(slots, i, i);
    RoundShifts(Top(slots, i), ph);
    RoundExact(Top(slots, i));
    if i + 1 < |slots| {
      TopGrows(slots, i + 1, i + 1);
      RoundShifts(Top(slots, i + 1), ph);
      RoundExact(Top(slots, i + 1));
    }
  }

  // ---------------------------------------------------------------------
  // The loop, one child at a time
  // ---------------------------------------------------------------------

  /** The variables of the loop: running offset, distance if inserted here, whether the preview is in. */
  datatype Cursor = Cursor(yOffset: real, delta: real, inserted: bool)

  function NextDelta(c: Cursor, slot: Slot, aim: Aim): real { Distance(aim, Round(c.yOffset + slot.height)) }

  /** The preview goes in before this child. */
  predicate InsertsHere(c: Cursor, slot: Slot, aim: Aim, show: bool) {
    !slot.fullscreen && show && !c.inserted && NextDelta(c, slot, aim) > c.delta
  }

  function ChildOffset(c: Cursor, slot: Slot, aim: Aim, show: bool, ph: real): real {
    c.yOffset + if InsertsHere(c, slot, aim, show) then ph else 0.0
  }

  function Advance(c: Cursor, slot: Slot, aim: Aim, show: bool, ph: real): Cursor {
    if slot.fullscreen then c
    else Cursor(ChildOffset(c, slot, aim, show, ph) + Round(slot.height) as real, NextDelta(c, slot, aim),
                c.inserted || InsertsHere(c, slot, aim, show))
  }

  function CursorAt(slots: seq<Slot>, aim: Aim, show: bool, ph: real, i: nat): Cursor
    requires i <= |slots|
  {
    if i == 0 then Cursor(0.0, Distance(aim, 0), false)
    else Advance(CursorAt(slots, aim, show, ph, i - 1), slots[i - 1], aim, show, ph)
  }

  /** The index of the preview, or -1 when none is shown. */
  function Gap(slots: seq<Slot>, aim: Aim, show: bool): int {
    if show then PreviewIndex(slots, aim) else -1
  }

  lemma CursorStarts(slots: seq<Slot>, aim: Aim, show: bool, ph: real)
    ensures CursorAt(slots, aim, show, ph, 0) == Cursor(0.0, Distance(aim, 0), false)
  {
  }

  lemma CursorAdvances(slots: seq<Slot>, aim: Aim, show: bool, ph: real, i: nat)
    requires i < |slots|
    ensures CursorAt(slots, aim, show, ph, i + 1) == Advance(CursorAt(slots, aim, show, ph, i), slots[i], aim, show, ph)
  {
  }

  lemma {:induction false} CursorWithoutPreview(slots: seq<Slot>, aim: Aim, ph: real, i: nat)
    requires i <= |slots|
    ensures var c := CursorAt(slots, aim, false, ph, i); c.yOffset == Top(slots, i) as real && !c.inserted
  {
    hide Round, Distance;
    if i > 0 {
      CursorWithoutPreview(slots, aim, ph, i - 1);
    }
  }

  /** One step of the search, taken while the gap is still ahead. */
  lemma SearchGoesOn(slots: seq<Slot>, aim: Aim, i: nat, top: int, delta: real)
    requires i < |slots| && InsertAt(slots, aim, i, top, delta) > i
    ensures slots[i].fullscreen ==> InsertAt(slots, aim, i + 1, top, delta) == InsertAt(slots, aim, i, top, delta)
    ensures !slots[i].fullscreen ==>
              var next := Distance(aim, Round(top as real + slots[i].height));
              next <= delta
              && InsertAt(slots, aim, i + 1, top + Round(slots[i].height), next) == InsertAt(slots, aim, i, top, delta)
  {
    hide Round, Distance;
  }

  lemma {:induction false} CursorBeforePreview(slots: seq<Slot>, aim: Aim, ph: real, i: nat)
    requires i <= PreviewIndex(slots, aim)
    ensures var c := CursorAt(slots, aim, true, ph, i);
            && c.yOffset == Top(slots, i) as real && !c.inserted
            && InsertAt(slots, aim, i, Top(slots, i), c.delta) == PreviewIndex(slots, aim)
  {
    hide Round, Distance, InsertAt;
    if i > 0 {
      CursorBeforePreview(slots, aim, ph, i - 1);
      CursorAdvances(slots, aim, true, ph, i - 1);
      SearchGoesOn(slots, aim, i - 1, Top(slots, i - 1), CursorAt(slots, aim, true, ph, i - 1).delta);
    }
  }

  /** The preview goes in exactly at its gap, and only there. */
  lemma InsertedAtPreview(slots: seq<Slot>, aim: Aim, ph: real, g: nat)
    requires g == PreviewIndex(slots, aim) < |slots|
    ensures !slots[g].fullscreen && InsertsHere(CursorAt(slots, aim, true, ph, g), slots[g], aim, true)
  {
    hide Round, Distance;
    CursorBeforePreview(slots, aim, ph, g);
  }

  lemma {:induction false} CursorAfterPreview(slots: seq<Slot>, aim: Aim, ph: real, i: nat)
    requires PreviewIndex(slots, aim) < i <= |slots|
    ensures var c := CursorAt(slots, aim, true, ph, i); c.yOffset == Top(slots, i) as real + ph && c.inserted
  {
    hide Round, Distance, InsertAt, PreviewIndex;
    var g := PreviewIndex(slots, aim);
    CursorAdvances(slots, aim, true, ph, i - 1);
    if g == i - 1 {
      CursorBeforePreview(slots, aim, ph, g);
      InsertedAtPreview(slots, aim, ph, g);
    } else {
      CursorAfterPreview(slots, aim, ph, i - 1);
    }
  }

  /** What the loop's variables mean when it reaches child i. */
  lemma CursorMeaning(slots: seq<Slot>, aim: Aim, show: bool, ph: real, i: nat)
    requires i <= |slots|
    ensures var c, g := CursorAt(slots, aim, show, ph, i), Gap(slots, aim, show);
            && c.yOffset == Top(slots, i) as real + (if 0 <= g < i then ph else 0.0)
            && c.inserted == (0 <= g < i)
            && (i < |slots| ==> (InsertsHere(c, slots[i], aim, show) <==> g == i))
            && (show ==> 0 <= g <= |slots|)
  {
    hide Round, Distance, InsertAt, PreviewIndex;
    if !show {
      CursorWithoutPreview(slots, aim, ph, i);
    } else if i <= PreviewIndex(slots, aim) {
      CursorBeforePreview(slots, aim, ph, i);
      if i == PreviewIndex(slots, aim) {
        if i < |slots| {
          InsertedAtPreview(slots, aim, ph, i);
        }
      } else {
        SearchGoesOn(slots, aim, i, Top(slots, i), CursorAt(slots, aim, true, ph, i).delta);
      }
    } else {
      CursorAfterPreview(slots, aim, ph, i);
    }
  }

  // ---------------------------------------------------------------------
  // The nearest gap
  // ---------------------------------------------------------------------

  /** Once moving down took the preview away from its aim, moving on cannot bring it back. */
  lemma DistanceKeepsGrowing(aim: Aim, a: int, b: int, c: int)
    requires a <= b <= c && Distance(aim, b) > Distance(aim, a)
    ensures Distance(aim, c) >= Distance(aim, b)
  {
  }

  lemma NextTop(slots: seq<Slot>, i: nat)
    requires NonNegative(slots) && i < |slots| && !slots[i].fullscreen
    ensures Round(Top(slots, i) as real + slots[i].height) == Top(slots, i) + Round(slots[i].height) == Top(slots, i + 1)
  {
    TopGrows(slots, i, i);
    RoundShifts(Top(slots, i), slots[i].height);
  }

  lemma {:induction false} InsertAtNearest(slots: seq<Slot>, aim: Aim, i: nat, j: nat)
    requires NonNegative(slots) && i <= |slots| && j <= |slots|
    requires forall k :: 0 <= k <= i ==> Distance(aim, Top(slots, i)) <= Distance(aim, Top(slots, k))
    ensures var g := InsertAt(slots, aim, i, Top(slots, i), Distance(aim, Top(slots, i)));
            && Distance(aim, Top(slots, g)) <= Distance(aim, Top(slots, j))
            && (g < j ==> Distance(aim, Top(slots, g)) < Distance(aim, Top(slots, j)))
    decreases |slots| - i
  {
    hide Round, Distance, NonNegative;
    if i == |slots| {
    } else if slots[i].fullscreen {
      InsertAtNearest(slots, aim, i + 1, j);
    } else {
      NextTop(slots, i);
      if Distance(aim, Top(slots, i + 1)) <= Distance(aim, Top(slots, i)) {
        InsertAtNearest(slots, aim, i + 1, j);
      } else if i < j {
        TopGrows(slots, i, i + 1);
        TopGrows(slots, i + 1, j);
        DistanceKeepsGrowing(aim, Top(slots, i), Top(slots, i + 1), Top(slots, j));
      }
    }
  }

  /**
   * The first-increase test finds the gap that is nearest of all, and of
   * several equally near the last.
   */
  lemma PreviewIsNearest(slots: seq<Slot>, aim: Aim, j: nat)
    requires NonNegative(slots) && j <= |slots|
    ensures var g := PreviewIndex(slots, aim);
            && Distance(aim, Top(slots, g)) <= Distance(aim, Top(slots, j))
            && (g < j ==> Distance(aim, Top(slots, g)) < Distance(aim, Top(slots, j)))
  {
    InsertAtNearest(slots, aim, 0, j);
  }

  // ---------------------------------------------------------------------
  // How tall everything is
  // ---------------------------------------------------------------------

  /** What decides a child's height. */
  datatype Pane = Pane(fullscreen: bool, titlebar: real, fraction: real)

  ghost predicate Sane(panes: seq<Pane>) {
    forall i :: 0 <= i < |panes| ==> panes[i].titlebar >= 0.0 && panes[i].fraction > 0.0
  }

  function Titlebars(panes: seq<Pane>, n: nat): real
    requires n <= |panes|
  {
    if n == 0 then 0.0
    else Titlebars(panes, n - 1) + if panes[n - 1].fullscreen then 0.0 else panes[n - 1].titlebar
  }

  function FractionSum(panes: seq<Pane>, n: nat): real
    requires n <= |panes|
  {
    if n == 0 then 0.0
    else FractionSum(panes, n - 1) + if panes[n - 1].fullscreen then 0.0 else panes[n - 1].fraction
  }

  /** What the titlebars leave of the column's height. */
  function Available(panes: seq<Pane>, show: bool, height: real): real {
    height - Titlebars(panes, |panes|) - if show then PREVIEW_TITLEBAR_HEIGHT else 0.0
  }

  function Total(panes: seq<Pane>, show: bool, previewFraction: real): real {
    FractionSum(panes, |panes|) + if show then previewFraction else 0.0
  }

  function Portion(available: real, fraction: real, total: real): real
    requires total != 0.0
  {
    available * fraction / total
  }

  /** In a split column every child has a share of what is available. */
  function SplitHeight(titlebar: real, fraction: real, available: real, total: real): real
    requires total != 0.0
  {
    titlebar + Portion(available, fraction, total)
  }

  lemma {:induction false} FractionsPositive(panes: seq<Pane>, n: nat, i: nat)
    requires Sane(panes) && n <= |panes|
    ensures FractionSum(panes, n) >= 0.0 && Titlebars(panes, n) >= 0.0
    ensures i < n && !panes[i].fullscreen ==> FractionSum(panes, n) > 0.0
  {
    if n > 0 {
      FractionsPositive(panes, n - 1, i);
    }
  }

  lemma ShareNonNegative(available: real, fraction: real, total: real)
    requires available >= 0.0 && fraction >= 0.0 && total > 0.0
    ensures Portion(available, fraction, total) >= 0.0
  {
    if available * fraction > 0.0 {
      DivisionPositive(available * fraction, total);
    }
  }

  /** What the split layout asks for children before n. */
  function SplitSum(panes: seq<Pane>, available: real, total: real, n: nat): real
    requires total != 0.0 && n <= |panes|
  {
    if n == 0 then 0.0
    else SplitSum(panes, available, total, n - 1) +
         if panes[n - 1].fullscreen then 0.0
         else SplitHeight(panes[n - 1].titlebar, panes[n - 1].fraction, available, total)
  }

  lemma SharesAdd(available: real, a: real, b: real, total: real)
    requires total != 0.0
    ensures Portion(available, a, total) + Portion(available, b, total) == Portion(available, a + b, total)
    ensures Portion(available, 0.0, total) == 0.0
    ensures Portion(available, total, total) == available
  {
    assert available * (a + b) == available * a + available * b;
  }

  lemma {:induction false} SplitSumIs(panes: seq<Pane>, available: real, total: real, n: nat)
    requires total != 0.0 && n <= |panes|
    ensures SplitSum(panes, available, total, n)
            == Titlebars(panes, n) + Portion(available, FractionSum(panes, n), total)
  {
    hide Portion;
    SharesAdd(available, if n == 0 then 0.0 else FractionSum(panes, n - 1),
              if n == 0 then 0.0 else panes[n - 1].fraction, total);
    if n > 0 {
      SplitSumIs(panes, available, total, n - 1);
    }
  }

  lemma PartsFill(available: real, sum: real, previewFraction: real, show: bool, total: real)
    requires total == sum + (if show then previewFraction else 0.0) && total != 0.0
    ensures Portion(available, sum, total) + (if show then Portion(available, previewFraction, total) else 0.0)
            == available
  {
    hide Portion;
    SharesAdd(available, sum, previewFraction, total);
  }

  /** Before rounding, the visible children and the preview of a split column fill it exactly. */
  lemma SplitFillsColumn(panes: seq<Pane>, show: bool, previewFraction: real, height: real)
    requires Total(panes, show, previewFraction) != 0.0
    ensures var available, total := Available(panes, show, height), Total(panes, show, previewFraction);
            SplitSum(panes, available, total, |panes|)
            + (if show then SplitHeight(PREVIEW_TITLEBAR_HEIGHT, previewFraction, available, total) else 0.0)
            == height
  {
    hide Portion, SplitSum, FractionSum, Titlebars;
    var available, total := Available(panes, show, height), Total(panes, show, previewFraction);
    SplitSumIs(panes, available, total, |panes|);
    PartsFill(available, FractionSum(panes, |panes|), previewFraction, show, total);
  }

  /** What PlaceChildren is to be told about the children of a split column. */
  ghost predicate SplitSlots(panes: seq<Pane>, available: real, total: real, slots: seq<Slot>) {
    && |slots| == |panes|
    && forall i :: 0 <= i < |slots| ==>
         && slots[i].fullscreen == panes[i].fullscreen
         && (!panes[i].fullscreen ==>
               total != 0.0
               && slots[i].height == SplitHeight(panes[i].titlebar, panes[i].fraction, available, total))
  }

  /** A stacked column unrolls its active child only, or the preview instead of it. */
  ghost predicate StackedSlots(panes: seq<Pane>, available: real, open: int, slots: seq<Slot>) {
    && |slots| == |panes|
    && forall i :: 0 <= i < |slots| ==>
         && slots[i].fullscreen == panes[i].fullscreen
         && (!panes[i].fullscreen ==> slots[i].height == panes[i].titlebar + if i == open then available else 0.0)
  }

  /** When the titlebars fit, no split child has a negative height, so the preview is in the nearest gap. */
  lemma SplitNonNegative(panes: seq<Pane>, show: bool, previewFraction: real, height: real, slots: seq<Slot>)
    requires Sane(panes) && (show ==> previewFraction > 0.0) && Available(panes, show, height) >= 0.0
    requires SplitSlots(panes, Available(panes, show, height), Total(panes, show, previewFraction), slots)
    ensures NonNegative(slots)
  {
    hide Portion, Titlebars, FractionSum;
    forall i | 0 <= i < |slots| && !slots[i].fullscreen
      ensures slots[i].height >= 0.0
    {
      FractionsPositive(panes, |panes|, i);
      ShareNonNegative(Available(panes, show, height), panes[i].fraction, Total(panes, show, previewFraction));
    }
  }

  lemma StackedNonNegative(panes: seq<Pane>, available: real, open: int, slots: seq<Slot>)
    requires Sane(panes) && available >= 0.0 && StackedSlots(panes, available, open, slots)
    ensures NonNegative(slots)
  {
  }

  /** What the stacked layout asks for children before n. */
  function SlotSum(slots: seq<Slot>, n: nat): real
    requires n <= |slots|
  {
    if n == 0 then 0.0 else SlotSum(slots, n - 1) + if slots[n - 1].fullscreen then 0.0 else slots[n - 1].height
  }

  lemma {:induction false} StackedSumIs(panes: seq<Pane>, available: real, open: int, slots: seq<Slot>, n: nat)
    requires StackedSlots(panes, available, open, slots) && n <= |panes|
    ensures SlotSum(slots, n) ==
              Titlebars(panes, n) + if 0 <= open < n && !panes[open].fullscreen then available else 0.0
  {
    if n > 0 {
      StackedSumIs(panes, available, open, slots, n - 1);
    }
  }

  /** Before rounding, the children of a stacked column fill it exactly, around an open one or a preview. */
  lemma StackedFillsColumn(panes: seq<Pane>, show: bool, height: real, open: int, slots: seq<Slot>)
    requires StackedSlots(panes, Available(panes, show, height), open, slots)
    requires if show then open == -1 else 0 <= open < |panes| && !panes[open].fullscreen
    ensures SlotSum(slots, |slots|)
            + (if show then PREVIEW_TITLEBAR_HEIGHT + Available(panes, show, height) else 0.0) == height
  {
    StackedSumIs(panes, Available(panes, show, height), open, slots, |panes|);
  }

  // ---------------------------------------------------------------------
  // When the search can miss the nearest gap
  // ---------------------------------------------------------------------

  /** Some gap is nearer than the one where the preview goes. */
  ghost predicate Misled(slots: seq<Slot>, aim: Aim) {
    exists j :: 0 <= j <= |slots| && Nearer(slots, aim, j, PreviewIndex(slots, aim))
  }

  predicate Nearer(slots: seq<Slot>, aim: Aim, j: nat, k: nat)
    requires j <= |slots| && k <= |slots|
  {
    Distance(aim, Top(slots, j)) < Distance(aim, Top(slots, k))
  }

  /** Where the test looks for a gap behind child i - 1: its sum is rounded as a whole. */
  function Probe(slots: seq<Slot>, i: nat): int
    requires i <= |slots|
  {
    if i == 0 then 0
    else if slots[i - 1].fullscreen then Probe(slots, i - 1)
    else Round(Top(slots, i - 1) as real + slots[i - 1].height)
  }

  /** The test passes gap i: the next one is not farther away. */
  predicate Passes(slots: seq<Slot>, aim: Aim, i: nat)
    requires i < |slots|
  {
    Distance(aim, Probe(slots, i + 1)) <= Distance(aim, Probe(slots, i))
  }

  /** The first increase is at gap k, or there is none. */
  ghost predicate StopsAt(slots: seq<Slot>, aim: Aim, k: nat)
    requires k <= |slots|
  {
    (forall i :: 0 <= i < k ==> Passes(slots, aim, i)) && (k < |slots| ==> !Passes(slots, aim, k))
  }

  lemma {:induction false} InsertAtStops(slots: seq<Slot>, aim: Aim, i: nat)
    requires i <= |slots| && forall m :: 0 <= m < i ==> Passes(slots, aim, m)
    ensures StopsAt(slots, aim, InsertAt(slots, aim, i, Top(slots, i), Distance(aim, Probe(slots, i))))
    decreases |slots| - i
  {
    hide Round, Distance;
    if i < |slots| && Passes(slots, aim, i) {
      InsertAtStops(slots, aim, i + 1);
    }
  }

  lemma PreviewStops(slots: seq<Slot>, aim: Aim, k: nat)
    requires k <= |slots|
    ensures StopsAt(slots, aim, k) <==> k == PreviewIndex(slots, aim)
  {
    InsertAtStops(slots, aim, 0);
    var g := PreviewIndex(slots, aim);
    hide InsertAt;
    hide Distance, Probe;
    if k < g {
      assert Passes(slots, aim, k);
    } else if g < k {
      assert !Passes(slots, aim, g);
    }
  }

  /** The anchor's place below the baseline of a preview at the column's edge. */
  function Place(aim: Aim): real { aim.anchor - aim.y - aim.baseline }

  function Middle(a: int, b: int): real { (a + b) as real / 2.0 }

  /** Which of two offsets is nearer is a matter of the side of their middle. */
  lemma NearerSide(aim: Aim, p: int, q: int)
    ensures Distance(aim, p) < Distance(aim, q)
            <==> if p < q then Place(aim) < Middle(p, q) else p > q && Place(aim) > Middle(p, q)
  {
  }

  function Max(a: real, b: real): real { if a < b then b else a }

  function Min(a: real, b: real): real { if a < b then a else b }

  /** From here on, as far as here, the test gets to gap k. */
  function ReachLow(slots: seq<Slot>, low: real, k: nat): real
    requires k <= |slots|
  {
    if k == 0 then low
    else
      var p, q := Probe(slots, k - 1), Probe(slots, k);
      Max(ReachLow(slots, low, k - 1), if p < q then Middle(p, q) else low)
  }

  function ReachHigh(slots: seq<Slot>, high: real, k: nat): real
    requires k <= |slots|
  {
    if k == 0 then high
    else
      var p, q := Probe(slots, k - 1), Probe(slots, k);
      Min(ReachHigh(slots, high, k - 1), if q < p then Middle(p, q) else high)
  }

  lemma {:induction false} ReachIff(slots: seq<Slot>, aim: Aim, low: real, high: real, k: nat)
    requires k <= |slots| && low <= Place(aim) <= high
    ensures (forall i :: 0 <= i < k ==> Passes(slots, aim, i))
            <==> ReachLow(slots, low, k) <= Place(aim) <= ReachHigh(slots, high, k)
  {
    hide Probe, Distance, Place;
    if k > 0 {
      ReachIff(slots, aim, low, high, k - 1);
      NearerSide(aim, Probe(slots, k - 1), Probe(slots, k));
      assert (forall i :: 0 <= i < k ==> Passes(slots, aim, i))
             <==> (forall i :: 0 <= i < k - 1 ==> Passes(slots, aim, i)) && Passes(slots, aim, k - 1);
    }
  }

  /** Above this, and below that, the test stops at gap k while gap j is nearer. */
  function BeyondLow(slots: seq<Slot>, low: real, k: nat, j: nat): real
    requires k <= |slots| && j <= |slots|
  {
    Max(if k < |slots| && Probe(slots, k + 1) < Probe(slots, k) then Middle(Probe(slots, k), Probe(slots, k + 1))
        else low - 1.0,
        if Top(slots, k) < Top(slots, j) then Middle(Top(slots, j), Top(slots, k)) else low - 1.0)
  }

  function BeyondHigh(slots: seq<Slot>, high: real, k: nat, j: nat): real
    requires k <= |slots| && j <= |slots|
  {
    Min(if k < |slots| && Probe(slots, k) < Probe(slots, k + 1) then Middle(Probe(slots, k), Probe(slots, k + 1))
        else high,
        Min(if Top(slots, j) < Top(slots, k) then Middle(Top(slots, j), Top(slots, k)) else high, high))
  }

  /** The test stops at k although j is nearer, for an anchor at some place from low to before high. */
  predicate CanPass(slots: seq<Slot>, low: real, high: real, k: nat, j: nat)
    requires k <= |slots| && j <= |slots|
  {
    var reachLow, reachHigh := ReachLow(slots, low, k), ReachHigh(slots, high, k);
    var above, below := BeyondLow(slots, low, k, j), BeyondHigh(slots, high, k, j);
    && (k < |slots| ==> Probe(slots, k + 1) != Probe(slots, k)) && Top(slots, j) != Top(slots, k)
    && reachLow <= reachHigh && reachLow < below && above < reachHigh && above < below
  }

  /** What can be seen of the heights alone: two gaps that some place of the anchor puts in this order. */
  ghost predicate CanMislead(slots: seq<Slot>, low: real, high: real) {
    exists k, j :: 0 <= k <= |slots| && 0 <= j <= |slots| && CanPass(slots, low, high, k, j)
  }

  lemma PassIff(slots: seq<Slot>, aim: Aim, low: real, high: real, k: nat, j: nat)
    requires k <= |slots| && j <= |slots| && low <= Place(aim) < high
    ensures StopsAt(slots, aim, k) && Nearer(slots, aim, j, k)
            <==>
            && (k < |slots| ==> Probe(slots, k + 1) != Probe(slots, k)) && Top(slots, j) != Top(slots, k)
            && ReachLow(slots, low, k) <= Place(aim) <= ReachHigh(slots, high, k)
            && BeyondLow(slots, low, k, j) < Place(aim) < BeyondHigh(slots, high, k, j)
  {
    hide Probe, Top, Distance, Place, ReachLow, ReachHigh;
    ReachIff(slots, aim, low, high, k);
    NearerSide(aim, Top(slots, j), Top(slots, k));
    if k < |slots| {
      NearerSide(aim, Probe(slots, k), Probe(slots, k + 1));
    }
  }

  lemma SomewhereBetween(a: real, b: real, c: real, d: real) returns (x: real)
    requires a <= b && a < d && c < b && c < d
    ensures a <= x <= b && c < x < d
  {
    var low, high := Max(a, c), Min(b, d);
    x := (low + high) / 2.0;
  }

  lemma BoundsHold(slots: seq<Slot>, low: real, high: real, k: nat, j: nat)
    requires k <= |slots| && j <= |slots|
    ensures ReachLow(slots, low, k) >= low && BeyondHigh(slots, high, k, j) <= high
  {
    if k > 0 {
      BoundsHold(slots, low, high, k - 1, j);
    }
  }

  /**
   * A column's heights let the search miss the nearest gap for some cursor that
   * is over the column if and only if two of its gaps, with what is probed on
   * the way, leave room for that.
   */
  lemma MisledIff(slots: seq<Slot>, y: real, baseline: real, height: real)
    ensures (exists anchor: real :: y <= anchor < y + height && Misled(slots, Aim(y, baseline, anchor)))
            <==> CanMislead(slots, -baseline, height - baseline)
  {
    hide CanPass, Nearer, PreviewIndex, Distance, Top;
    var low, high := -baseline, height - baseline;
    if anchor: real :| y <= anchor < y + height && Misled(slots, Aim(y, baseline, anchor)) {
      var aim := Aim(y, baseline, anchor);
      var k := PreviewIndex(slots, aim);
      var j :| 0 <= j <= |slots| && Nearer(slots, aim, j, k);
      MisledPasses(slots, aim, low, high, k, j);
    }
    if CanMislead(slots, low, high) {
      var k, j :| 0 <= k <= |slots| && 0 <= j <= |slots| && CanPass(slots, low, high, k, j);
      var anchor := PassMisleads(slots, y, baseline, height, k, j);
    }
  }

  lemma MisledPasses(slots: seq<Slot>, aim: Aim, low: real, high: real, k: nat, j: nat)
    requires k <= |slots| && j <= |slots| && low <= Place(aim) < high
    requires k == PreviewIndex(slots, aim) && Nearer(slots, aim, j, k)
    ensures CanPass(slots, low, high, k, j)
  {
    hide Probe, Top, Distance, Place, ReachLow, ReachHigh, BeyondLow, BeyondHigh, PreviewIndex, StopsAt, Nearer;
    PreviewStops(slots, aim, k);
    PassIff(slots, aim, low, high, k, j);
  }

  lemma PassMisleads(slots: seq<Slot>, y: real, baseline: real, height: real, k: nat, j: nat) returns (anchor: real)
    requires k <= |slots| && j <= |slots| && CanPass(slots, -baseline, height - baseline, k, j)
    ensures y <= anchor < y + height && Misled(slots, Aim(y, baseline, anchor))
  {
    var low, high := -baseline, height - baseline;
    BoundsHold(slots, low, high, k, j);
    hide Probe, Top, Distance, ReachLow, ReachHigh, BeyondLow, BeyondHigh, PreviewIndex, StopsAt, Nearer;
    var x := SomewhereBetween(ReachLow(slots, low, k), ReachHigh(slots, high, k),
                              BeyondLow(slots, low, k, j), BeyondHigh(slots, high, k, j));
    anchor := x + y + baseline;
    var aim := Aim(y, baseline, anchor);
    assert Place(aim) == x;
    PassIff(slots, aim, low, high, k, j);
    PreviewStops(slots, aim, k);
  }

  /** Without negative heights there is no such room. */
  lemma NonNegativeNeverMisleads(slots: seq<Slot>, y: real, baseline: real, height: real)
    requires NonNegative(slots)
    ensures !CanMislead(slots, -baseline, height - baseline)
  {
    MisledIff(slots, y, baseline, height);
    forall anchor: real | y <= anchor < y + height
      ensures !Misled(slots, Aim(y, baseline, anchor))
    {
      var aim := Aim(y, baseline, anchor);
      forall j | 0 <= j <= |slots|
        ensures !Nearer(slots, aim, j, PreviewIndex(slots, aim))
      {
        PreviewIsNearest(slots, aim, j);
      }
    }
  }

  /**
   * Two children in a column of height 30, with titlebars of height 10: nothing
   * is available for three titlebars, so the bigger child is given a negative
   * height. With the cursor at height 5 the preview goes to the top, although
   * the gap at the end is exactly there.
   */
  lemma NegativeHeightsMislead(slots: seq<Slot>)
    requires var panes := [Pane(false, 10.0, 0.65), Pane(false, 10.0, 0.1)];
             SplitSlots(panes, Available(panes, true, 30.0), Total(panes, true, 0.25), slots)
    ensures var aim := Aim(0.0, 0.0, 5.0);
            && aim.y <= aim.anchor < aim.y + 30.0
            && PreviewIndex(slots, aim) == 0 && Distance(aim, Top(slots, 0)) == 5.0
            && Top(slots, 2) == 5 && Distance(aim, Top(slots, 2)) == 0.0
            && Misled(slots, aim) && CanMislead(slots, 0.0, 30.0)
  {
    var panes := [Pane(false, 10.0, 0.65), Pane(false, 10.0, 0.1)];
    var aim := Aim(0.0, 0.0, 5.0);
    assert Titlebars(panes, 1) == 10.0 && Titlebars(panes, 2) == 20.0;
    assert FractionSum(panes, 1) == 0.65 && FractionSum(panes, 2) == 0.75;
    assert Available(panes, true, 30.0) == -20.0 && Total(panes, true, 0.25) == 1.0;
    assert slots[0] == Slot(false, -3.0) && slots[1] == Slot(false, 8.0);
    assert Top(slots, 1) == -3 && Top(slots, 2) == 5;
    assert Nearer(slots, aim, 2, 0);
    MisledIff(slots, 0.0, 0.0, 30.0);
  }

  // ---------------------------------------------------------------------
  // The loops
  // ---------------------------------------------------------------------

  datatype Layout = Split | Stacked

  class Child {
    var fullscreen: bool
    var titlebarHeight: real
    var heightFraction: real
    var shaded: bool
    var y: real
    var height: real

    constructor (titlebarHeight: real)
      ensures this.titlebarHeight == titlebarHeight && heightFraction == 1.0 && !fullscreen
    {
      this.titlebarHeight, heightFraction := titlebarHeight, 1.0;
      fullscreen, shaded, y, height := false, false, 0.0, 0.0;
    }
  }

  class Column {
    var children: seq<Child>
    var activeChild: Child?
    var layout: Layout
    var y: real
    var height: real
    var showPreview: bool
    var previewHeightFraction: real
    var previewBaseline: real
    var previewAnchorY: real
    var previewTarget: Child?
    var previewY: real
    var previewHeight: real

    constructor (layout: Layout)
      ensures children == [] && activeChild == null && !showPreview && this.layout == layout
    {
      children, activeChild, this.layout, previewTarget := [], null, layout, null;
      y, height, previewHeightFraction, previewBaseline := 0.0, 0.0, 0.0, 0.0;
      previewAnchorY, previewY, previewHeight, showPreview := 0.0, 0.0, 0.0, false;
    }

    ghost function Slots(heights: seq<real>): (slots: seq<Slot>)
      requires |heights| == |children|
      reads this`children, children`fullscreen
      ensures |slots| == |children|
      ensures forall i :: 0 <= i < |slots| ==> slots[i] == Slot(children[i].fullscreen, heights[i])
    {
      SlotsUpTo(heights, |children|)
    }

    ghost function SlotsUpTo(heights: seq<real>, n: nat): (slots: seq<Slot>)
      requires n <= |heights| == |children|
      reads this`children, children`fullscreen
      ensures |slots| == n
      ensures forall i :: 0 <= i < n ==> slots[i] == Slot(children[i].fullscreen, heights[i])
    {
      if n == 0 then [] else SlotsUpTo(heights, n - 1) + [Slot(children[n - 1].fullscreen, heights[n - 1])]
    }

    ghost function Panes(): (panes: seq<Pane>)
      reads this`children, children`fullscreen, children`titlebarHeight, children`heightFraction
      ensures |panes| == |children|
      ensures forall i :: 0 <= i < |panes| ==>
                panes[i] == Pane(children[i].fullscreen, children[i].titlebarHeight, children[i].heightFraction)
    {
      PanesUpTo(|children|)
    }

    ghost function PanesUpTo(n: nat): (panes: seq<Pane>)
      requires n <= |children|
      reads this`children, children`fullscreen, children`titlebarHeight, children`heightFraction
      ensures |panes| == n
      ensures forall i :: 0 <= i < n ==>
                panes[i] == Pane(children[i].fullscreen, children[i].titlebarHeight, children[i].heightFraction)
    {
      if n == 0 then []
      else PanesUpTo(n - 1)
           + [Pane(children[n - 1].fullscreen, children[n - 1].titlebarHeight, children[n - 1].heightFraction)]
    }

    function CurrentAim(): Aim
      reads `y, `previewBaseline, `previewHeightFraction, `previewAnchorY
    {
      Aim(y, Round(previewBaseline * previewHeightFraction) as real, previewAnchorY)
    }

    ghost predicate PreviewPlaced(slots: seq<Slot>, g: int, ph: real)
      requires |slots| == |children|
      reads `children, `y, `previewTarget, `previewY, `previewHeight
    {
      && 0 <= g <= |slots|
      && previewTarget == (if g > 0 then children[g - 1] else null)
      && previewY == y + Top(slots, g) as real
      && previewHeight == Round(ph) as real
    }

    ghost predicate ChildPlaced(slots: seq<Slot>, g: int, ph: real, k: nat)
      requires k < |slots| == |children|
      reads `y, `children, children`y, children`height
    {
      !slots[k].fullscreen ==>
        children[k].y == y + ChildTop(slots, g, ph, k) as real && children[k].height == Round(slots[k].height) as real
    }

    ghost function SplitTotal(): real
      reads this, children`fullscreen, children`titlebarHeight, children`heightFraction
    {
      Total(Panes(), showPreview, previewHeightFraction)
    }

    /** How tall the preview is in a split column; it has no height when it is not shown. */
    function SplitPreviewHeight(available: real, total: real): real
      reads `showPreview, `previewHeightFraction
    {
      if showPreview && total != 0.0
      then SplitHeight(PREVIEW_TITLEBAR_HEIGHT, previewHeightFraction, available, total)
      else 0.0
    }

    /** The index of child, or -1. */
    ghost function IndexOf(child: Child?): (i: int)
      reads `children
      ensures i == -1 ==> child !in children
      ensures i != -1 ==> 0 <= i < |children| && children[i] == child
    {
      if child in children then var i :| 0 <= i < |children| && children[i] == child; i else -1
    }

    /** The whole column as one stack, the preview in the gap nearest to its aim. */
    ghost predicate Placed(slots: seq<Slot>, ph: real)
      reads this, children`y, children`height
    {
      var g := Gap(slots, CurrentAim(), showPreview);
      && |slots| == |children|
      && (forall k :: 0 <= k < |children| ==> ChildPlaced(slots, g, ph, k))
      && (showPreview ==> PreviewPlaced(slots, g, ph))
    }

    method PlacePreview(index: nat, yOffset: real, ph: real)
      requires index <= |children|
      modifies `previewTarget, `previewY, `previewHeight
      ensures previewTarget == (if index > 0 then children[index - 1] else null)
      ensures previewY == y + Round(yOffset) as real && previewHeight == Round(ph) as real
    {
      previewTarget := if index > 0 then children[index - 1] else null;
      previewY := y + Round(yOffset) as real;
      previewHeight := Round(ph) as real;
    }

    method PlaceChild(child: Child, yOffset: real, height: real)
      modifies child`y, child`height
      ensures child.y == y + Round(yOffset) as real && child.height == Round(height) as real
    {
      child.y := y + Round(yOffset) as real;
      child.height := Round(height) as real;
    }

    /** One round of the loop: place this child, and the preview before it if its gap is here. */
    method PlaceNext(child: Child, index: nat, height: real, aim: Aim, ph: real, c: Cursor) returns (next: Cursor)
      requires index < |children| && children[index] == child
      modifies `previewTarget, `previewY, `previewHeight, child`y, child`height
      ensures next == Advance(c, Slot(child.fullscreen, height), aim, showPreview, ph)
      ensures !child.fullscreen ==>
                && child.y == y + Round(ChildOffset(c, Slot(false, height), aim, showPreview, ph)) as real
                && child.height == Round(height) as real
      ensures if InsertsHere(c, Slot(child.fullscreen, height), aim, showPreview)
              then && previewTarget == (if index > 0 then children[index - 1] else null)
                   && previewY == y + Round(c.yOffset) as real && previewHeight == Round(ph) as real
              else previewTarget == old(previewTarget) && previewY == old(previewY)
                   && previewHeight == old(previewHeight)
    {
      next := c;
      if child.fullscreen {
        return;
      }
      var delta := next.delta;
      next := next.(delta := Distance(aim, Round(next.yOffset + height)));
      if showPreview && !next.inserted && next.delta > delta {
        PlacePreview(index, next.yOffset, ph);
        next := next.(inserted := true, yOffset := next.yOffset + ph);
      }
      PlaceChild(child, next.yOffset, height);
      next := next.(yOffset := next.yOffset + child.height);
    }

    /** The loop both layouts share, once they know how tall every child and the preview should be. */
    method PlaceChildren(heights: seq<real>, ph: real)
      requires NoDuplicates(children) && |heights| == |children|
      modifies `previewTarget, `previewY, `previewHeight, children`y, children`height
      ensures Placed(Slots(heights), ph)
    {
      hide PreviewIndex, CursorAt, InsertAt, Distance, CurrentAim, Advance, InsertsHere, Slots, Top, Gap;
      hide ChildPlaced, PreviewPlaced, NoDuplicates;
      ghost var slots := Slots(heights);
      var aim := CurrentAim();
      ghost var g := Gap(slots, aim, showPreview);
      var c := Cursor(0.0, Distance(aim, 0), false);
      CursorStarts(slots, aim, showPreview, ph);
      for i := 0 to |children|
        invariant slots == Slots(heights) && aim == CurrentAim()
        invariant c == CursorAt(slots, aim, showPreview, ph, i)
        invariant forall k :: 0 <= k < i ==> ChildPlaced(slots, g, ph, k)
        invariant c.inserted ==> PreviewPlaced(slots, g, ph)
      {
        c := PlaceNth(i, heights, slots, aim, ph, c);
      }
      PlaceAtEnd(slots, aim, ph, c);
    }

    /** One round of the loop. */
    method PlaceNth(i: nat, heights: seq<real>, ghost slots: seq<Slot>, aim: Aim, ph: real, c: Cursor) returns (next: Cursor)
      requires NoDuplicates(children) && i < |heights| == |children| && slots == Slots(heights) && aim == CurrentAim()
      requires c == CursorAt(slots, aim, showPreview, ph, i)
      requires forall k :: 0 <= k < i ==> ChildPlaced(slots, Gap(slots, aim, showPreview), ph, k)
      requires c.inserted ==> PreviewPlaced(slots, Gap(slots, aim, showPreview), ph)
      modifies `previewTarget, `previewY, `previewHeight, children`y, children`height
      ensures slots == Slots(heights) && aim == CurrentAim()
      ensures next == CursorAt(slots, aim, showPreview, ph, i + 1)
      ensures forall k :: 0 <= k < i + 1 ==> ChildPlaced(slots, Gap(slots, aim, showPreview), ph, k)
      ensures next.inserted ==> PreviewPlaced(slots, Gap(slots, aim, showPreview), ph)
    {
      hide PreviewIndex, CursorAt, InsertAt, Distance, CurrentAim, Advance, InsertsHere, Slots, Top, Gap;
      CursorMeaning(slots, aim, showPreview, ph, i);
      CursorMeaning(slots, aim, showPreview, ph, i + 1);
      CursorAdvances(slots, aim, showPreview, ph, i);
      RoundExact(Top(slots, i));
      ghost var g := Gap(slots, aim, showPreview);
      assert slots[i] == Slot(children[i].fullscreen, heights[i]);
      next := PlaceNext(children[i], i, heights[i], aim, ph, c);
      assert ChildPlaced(slots, g, ph, i);
      forall k | 0 <= k < i
        ensures ChildPlaced(slots, g, ph, k)
      {
        assert old(ChildPlaced(slots, g, ph, k)) && children[k] != children[i];
      }
    }

    /** The preview goes behind all children if it did not go in before one of them. */
    method PlaceAtEnd(ghost slots: seq<Slot>, aim: Aim, ph: real, c: Cursor)
      requires |slots| == |children| && c == CursorAt(slots, aim, showPreview, ph, |children|)
      requires c.inserted ==> PreviewPlaced(slots, Gap(slots, aim, showPreview), ph)
      modifies `previewTarget, `previewY, `previewHeight
      ensures showPreview ==> PreviewPlaced(slots, Gap(slots, aim, showPreview), ph)
    {
      hide CursorAt, Top, Gap;
      CursorMeaning(slots, aim, showPreview, ph, |children|);
      RoundExact(Top(slots, |children|));
      if showPreview && !c.inserted {
        PlacePreview(|children|, c.yOffset, ph);
      }
    }

    /** The first loop of both layouts: what the titlebars leave, and the fractions to divide it by. */
    method Measure() returns (available: real, total: real)
      ensures available == Available(Panes(), showPreview, height)
      ensures total == Total(Panes(), showPreview, previewHeightFraction)
    {
      total, available := 0.0, height;
      for i := 0 to |children|
        invariant total == FractionSum(Panes(), i)
        invariant available == height - Titlebars(Panes(), i)
      {
        if !children[i].fullscreen {
          total := total + children[i].heightFraction;
          available := available - children[i].titlebarHeight;
        }
      }
      if showPreview {
        total := total + previewHeightFraction;
        available := available - PREVIEW_TITLEBAR_HEIGHT;
      }
    }

    /** The heights of a split column; every child is unrolled. */
    method SplitHeights(available: real, total: real) returns (heights: seq<real>)
      requires Sane(Panes()) && total >= FractionSum(Panes(), |children|)
      modifies children`shaded
      ensures |heights| == |children| && SplitSlots(Panes(), available, total, Slots(heights))
      ensures forall k :: 0 <= k < |children| && !children[k].fullscreen ==> !children[k].shaded
    {
      ghost var panes := Panes();
      heights := [];
      for i := 0 to |children|
        invariant |heights| == i && panes == Panes()
        invariant forall k :: 0 <= k < i && !panes[k].fullscreen ==>
                    && total != 0.0 && !children[k].shaded
                    && heights[k] == SplitHeight(panes[k].titlebar, panes[k].fraction, available, total)
      {
        var child := children[i];
        if child.fullscreen {
          heights := heights + [0.0];
        } else {
          FractionsPositive(panes, |children|, i);
          heights := heights + [SplitHeight(child.titlebarHeight, child.heightFraction, available, total)];
          child.shaded := false;
        }
      }
    }

    method ArrangeSplit() returns (ghost slots: seq<Slot>)
      requires NoDuplicates(children) && Sane(Panes()) && (showPreview ==> previewHeightFraction > 0.0)
      modifies `previewTarget, `previewY, `previewHeight, children`y, children`height, children`shaded
      ensures Panes() == old(Panes())
      ensures forall k :: 0 <= k < |children| && !children[k].fullscreen ==> !children[k].shaded
      ensures SplitSlots(Panes(), Available(Panes(), showPreview, height), SplitTotal(), slots)
      ensures Placed(slots, SplitPreviewHeight(Available(Panes(), showPreview, height), SplitTotal()))
    {
      hide Slots, Panes, SplitSlots, Placed, SplitPreviewHeight, Available, FractionSum, Titlebars, NoDuplicates;
      var available, total := Measure();
      FractionsPositive(Panes(), |children|, 0);
      var heights := SplitHeights(available, total);
      var ph := SplitPreviewHeight(available, total);
      slots := Slots(heights);
      PlaceChildren(heights, ph);
    }

    /** The heights of a stacked column; only the active child is unrolled, and none while a preview shows. */
    method StackedHeights(available: real, open: Child?) returns (heights: seq<real>)
      requires NoDuplicates(children)
      modifies children`shaded
      ensures |heights| == |children| && StackedSlots(Panes(), available, IndexOf(open), Slots(heights))
      ensures forall k :: 0 <= k < |children| && !children[k].fullscreen ==>
                (children[k].shaded <==> children[k] != open)
    {
      ghost var panes := Panes();
      heights := [];
      for i := 0 to |children|
        invariant |heights| == i && panes == Panes()
        invariant forall k :: 0 <= k < i && !panes[k].fullscreen ==>
                    && (children[k].shaded <==> children[k] != open)
                    && heights[k] == panes[k].titlebar + if children[k] == open then available else 0.0
      {
        var child := children[i];
        if child.fullscreen {
          heights := heights + [0.0];
        } else if child != open {
          child.shaded := true;
          heights := heights + [child.titlebarHeight];
        } else {
          child.shaded := false;
          heights := heights + [child.titlebarHeight + available];
        }
      }
    }

    method ArrangeStacked() returns (ghost slots: seq<Slot>)
      requires NoDuplicates(children)
      modifies `previewTarget, `previewY, `previewHeight, children`y, children`height, children`shaded
      ensures Panes() == old(Panes())
      ensures forall k :: 0 <= k < |children| && !children[k].fullscreen ==>
                (children[k].shaded <==> showPreview || children[k] != activeChild)
      ensures var available := Available(Panes(), showPreview, height);
              && StackedSlots(Panes(), available, IndexOf(if showPreview then null else activeChild), slots)
              && Placed(slots, PREVIEW_TITLEBAR_HEIGHT + available)
    {
      hide Slots, Panes, StackedSlots, Placed, Available, FractionSum, Titlebars, NoDuplicates;
      var available, _ := Measure();
      var open := if showPreview then null else activeChild;
      var heights := StackedHeights(available, open);
      slots := Slots(heights);
      PlaceChildren(heights, PREVIEW_TITLEBAR_HEIGHT + available);
    }
  }

  lemma NearestAt(slots: seq<Slot>, aim: Aim, previewY: real, j: nat)
    requires NonNegative(slots) && j <= |slots| && previewY == aim.y + Top(slots, PreviewIndex(slots, aim)) as real
    ensures Abs(previewY + aim.baseline - aim.anchor) <= Abs(aim.y + Top(slots, j) as real + aim.baseline - aim.anchor)
  {
    PreviewIsNearest(slots, aim, j);
  }

  /** The preview shows with its baseline as near to the anchor as it would be in any gap. */
  lemma ShownNearestToAnchor(column: Column, slots: seq<Slot>, ph: real, aim: Aim, j: nat)
    requires column.Placed(slots, ph) && column.showPreview && NonNegative(slots) && j <= |slots|
    requires aim == column.CurrentAim()
    ensures Abs(column.previewY + aim.baseline - column.previewAnchorY)
            <= Abs(column.y + Top(slots, j) as real + aim.baseline - column.previewAnchorY)
  {
    hide NonNegative, PreviewIndex, Top, Abs, Round;
    NearestAt(slots, aim, column.previewY, j);
  }

  /** The baseline is a share of the dragged window's, in whole pixels. */
  lemma BaselineIs(column: Column)
    ensures column.CurrentAim().baseline == Round(column.previewBaseline * column.previewHeightFraction) as real
    ensures -0.5 <= column.CurrentAim().baseline - column.previewBaseline * column.previewHeightFraction <= 0.5
  {
    RoundNear(column.previewBaseline * column.previewHeightFraction);
  }
}
