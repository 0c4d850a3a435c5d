/**
 History paging (wxcd-worker/src/main.rs, `slice_thread_history_page`) and the page labels rendered for it
 (wxcd-render/src/lib.rs, `render_history_page`), with the source's saturating 64-bit arithmetic.
 */
module HistoryPages {
  const USIZE_MAX: nat := 0xFFFF_FFFF_FFFF_FFFF

  function SaturatingSub(a: nat, b: nat): nat {
    if a < b then 0 else a - b
  }

  function SaturatingAdd(a: nat, b: nat): nat {
    if a + b > USIZE_MAX then USIZE_MAX else a + b
  }

  function SaturatingMul(a: nat, b: nat): nat {
    if a * b > USIZE_MAX then USIZE_MAX else a * b
  }

  function SlicePage<T>(turns: seq<T>, page: nat, pageSize: nat): (shown: seq<T>)
    ensures |shown| <= pageSize
  {
    var total := |turns|;
    var newer := SaturatingMul(SaturatingSub(page, 1), pageSize);
    if total == 0 || newer >= total then []
    else
      var end: nat := total - newer;
      turns[SaturatingSub(end, pageSize)..end]
  }

  /** The "turns a-b" label of a page that shows `shown` of `total` turns. */
  function Label(shown: nat, page: nat, pageSize: nat, total: nat): (nat, nat) {
    var newer := SaturatingMul(SaturatingSub(page, 1), pageSize);
    var end := SaturatingSub(total, newer);
    (SaturatingAdd(SaturatingSub(end, shown), 1), end)
  }

  function PageCount(total: nat, pageSize: nat): nat
    requires pageSize > 0
  {
    (total + pageSize - 1) / pageSize
  }

  /** Turn positions, counted from zero, that page `page` should hold: `[from, to)` in ideal arithmetic. */
  function IdealTo(total: nat, page: nat, pageSize: nat): int {
    total - (if page == 0 then 0 else page - 1) * pageSize
  }

  function IdealFrom(total: nat, page: nat, pageSize: nat): int {
    var from := IdealTo(total, page, pageSize) - pageSize;
    if from < 0 then 0 else from
  }

  /** Saturation never shows: a saturated product is past the end anyway. */
  lemma SliceIsIdeal<T>(turns: seq<T>, page: nat, pageSize: nat)
    requires |turns| <= USIZE_MAX
    ensures var to := IdealTo(|turns|, page, pageSize);
            SlicePage(turns, page, pageSize) == if to <= 0 then [] else turns[IdealFrom(|turns|, page, pageSize)..to]
  {
  }

  /** The label names exactly the positions that the slice shows, counted from one. */
  lemma LabelMatchesSlice<T>(turns: seq<T>, page: nat, pageSize: nat)
    requires |turns| <= USIZE_MAX
    requires SlicePage(turns, page, pageSize) != []
    ensures var shown := SlicePage(turns, page, pageSize);
            var (a, b) := Label(|shown|, page, pageSize, |turns|);
            1 <= a <= b <= |turns| && shown == turns[a - 1..b]
  {
    SliceIsIdeal(turns, page, pageSize);
  }

  lemma MulMonotone(a: nat, b: nat, c: nat)
    requires a <= b
    ensures a * c <= b * c
  {
  }

  lemma PageCountBounds(total: nat, pageSize: nat)
    requires pageSize > 0
    ensures PageCount(total, pageSize) * pageSize >= total
    ensures total > 0 ==> PageCount(total, pageSize) > 0 && (PageCount(total, pageSize) - 1) * pageSize < total
  {
    var n := PageCount(total, pageSize);
    assert n * pageSize + (total + pageSize - 1) % pageSize == total + pageSize - 1;
  }

  /** A page is empty exactly when it lies past the last one that the header announces. */
  lemma EmptyExactlyPastTheEnd<T>(turns: seq<T>, page: nat, pageSize: nat)
    requires |turns| <= USIZE_MAX && pageSize > 0 && page > 0
    ensures SlicePage(turns, page, pageSize) == [] <==> page > PageCount(|turns|, pageSize)
  {
    var n := PageCount(|turns|, pageSize);
    SliceIsIdeal(turns, page, pageSize);
    PageCountBounds(|turns|, pageSize);
    if page > n {
      MulMonotone(n, page - 1, pageSize);
    } else {
      MulMonotone(page - 1, n - 1, pageSize);
    }
  }

  /** Pages `page`, `page - 1`, ..., 1, one after the other. */
  function OldestFirst<T>(turns: seq<T>, page: nat, pageSize: nat): seq<T> {
    if page == 0 then [] else SlicePage(turns, page, pageSize) + OldestFirst(turns, page - 1, pageSize)
  }

  function NewestTurns<T>(turns: seq<T>, n: nat): seq<T> {
    turns[SaturatingSub(|turns|, n)..]
  }

  lemma OnePageMore(page: nat, pageSize: nat)
    requires page > 0
    ensures page * pageSize == (page - 1) * pageSize + pageSize
  {
  }

  lemma PrependPage<T>(turns: seq<T>, newer: nat, pageSize: nat)
    ensures var to := |turns| - newer;
            (if to <= 0 then [] else turns[SaturatingSub(to, pageSize)..to]) + NewestTurns(turns, newer)
            == NewestTurns(turns, newer + pageSize)
  {
  }

  lemma PageExtends<T>(turns: seq<T>, page: nat, pageSize: nat)
    requires |turns| <= USIZE_MAX && page > 0
    ensures SlicePage(turns, page, pageSize) + NewestTurns(turns, (page - 1) * pageSize)
            == NewestTurns(turns, page * pageSize)
  {
    SliceIsIdeal(turns, page, pageSize);
    OnePageMore(page, pageSize);
    PrependPage(turns, (page - 1) * pageSize, pageSize);
  }

  lemma {:induction false} PagesAreNewest<T>(turns: seq<T>, page: nat, pageSize: nat)
    requires |turns| <= USIZE_MAX
    ensures OldestFirst(turns, page, pageSize) == NewestTurns(turns, page * pageSize)
  {
    if page == 0 {
      assert NewestTurns(turns, 0) == [];
    } else {
      PagesAreNewest(turns, page - 1, pageSize);
      PageExtends(turns, page, pageSize);
    }
  }

  /** The pages partition the turns: from the last page to the first they are all turns, each once, in order. */
  lemma PagesPartition<T>(turns: seq<T>, pageSize: nat)
    requires |turns| <= USIZE_MAX && pageSize > 0
    ensures OldestFirst(turns, PageCount(|turns|, pageSize), pageSize) == turns
  {
    PagesAreNewest(turns, PageCount(|turns|, pageSize), pageSize);
    PageCountBounds(|turns|, pageSize);
    assert turns[0..] == turns;
  }
}
