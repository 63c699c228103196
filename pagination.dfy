/** `paginate_questions`: format every question of a selection, then cut the
    page `[(page - 1) * 10 : (page - 1) * 10 + 10]` out of the formatted list
    with Python's slice semantics. */
module Pagination {
  import opened Common
  import opened Records

  const QUESTIONS_PER_PAGE: nat := 10

  /** The items Python's `items[start:start + 10]` yields for a page number,
      with `start == (page - 1) * 10`. A positive page is the run of at most
      ten items that starts at `start`; page 0 is empty; no page, whatever its
      number, holds more than ten items. */
  function PageOf<T>(items: seq<T>, page: int): (r: seq<T>)
    ensures |r| <= QUESTIONS_PER_PAGE
    ensures page >= 1 ==> |r| == Min(QUESTIONS_PER_PAGE, Max(0, |items| - (page - 1) * QUESTIONS_PER_PAGE))
    ensures page >= 1 ==> forall k :: 0 <= k < |r| ==> r[k] == items[(page - 1) * QUESTIONS_PER_PAGE + k]
    ensures page == 0 ==> r == []
  {
    var start := (page - 1) * QUESTIONS_PER_PAGE;
    PySlice(items, start, start + QUESTIONS_PER_PAGE)
  }

  /** A page past the end of the list is empty, not an error. */
  lemma PageAfterEndIsEmpty<T>(items: seq<T>, page: int)
    requires page >= 1 && (page - 1) * QUESTIONS_PER_PAGE >= |items|
    ensures PageOf(items, page) == []
  {
  }

  /** A negative page counts from the end of the list, as Python slicing does:
      page -1 is the ten items that end ten before the last one. */
  lemma {:induction false} NegativePageCountsFromEnd<T>(items: seq<T>, page: int)
    requires page <= -1
    requires |items| + (page - 1) * QUESTIONS_PER_PAGE >= 0
    ensures PageOf(items, page) ==
      items[|items| + (page - 1) * QUESTIONS_PER_PAGE .. |items| + page * QUESTIONS_PER_PAGE]
  {
    var lo := |items| + (page - 1) * QUESTIONS_PER_PAGE;
    var r := PageOf(items, page);
    assert SliceBound((page - 1) * QUESTIONS_PER_PAGE, |items|) == lo;
    assert |r| == QUESTIONS_PER_PAGE;
    assert forall k :: 0 <= k < |r| ==> r[k] == items[lo + k];
  }

  /** Pages 1..n laid end to end. */
  ghost function FirstPages<T>(items: seq<T>, n: nat): seq<T> {
    if n == 0 then [] else FirstPages(items, n - 1) + PageOf(items, n)
  }

  /** Pages 1..n are exactly the first `10 * n` items: pagination never drops,
      repeats or reorders an item. */
  lemma {:induction false} FirstPagesArePrefix<T>(items: seq<T>, n: nat)
    ensures FirstPages(items, n) == items[..Min(n * QUESTIONS_PER_PAGE, |items|)]
  {
    if n > 0 {
      FirstPagesArePrefix(items, n - 1);
      var lo := Min((n - 1) * QUESTIONS_PER_PAGE, |items|);
      var hi := Min(n * QUESTIONS_PER_PAGE, |items|);
      var page := PageOf(items, n);
      assert page == items[lo..hi];
      assert items[..lo] + items[lo..hi] == items[..hi];
    }
  }

  /** Enough pages reconstruct the whole list. */
  lemma PagesReconstructAll<T>(items: seq<T>, n: nat)
    requires n * QUESTIONS_PER_PAGE >= |items|
    ensures FirstPages(items, n) == items
  {
    FirstPagesArePrefix(items, n);
    assert items[..|items|] == items;
  }

  /** The source function: an `append` loop builds the list of formatted
      questions, and the page is sliced out of it. It returns the page and the
      whole formatted list, the latter for the total count. */
  method PaginateQuestions(page: int, selection: seq<Question>) returns (current: seq<Formatted>, all: seq<Formatted>)
    ensures all == FormatAll(selection)
    ensures current == PageOf(all, page)
  {
    var start := (page - 1) * QUESTIONS_PER_PAGE;
    var end := start + QUESTIONS_PER_PAGE;
    all := [];
    for i := 0 to |selection|
      invariant all == FormatAll(selection[..i])
    {
      assert selection[..i + 1] == selection[..i] + [selection[i]];
      FormatAllSnoc(selection[..i], selection[i]);
      all := all + [Format(selection[i])];
    }
    assert selection[..|selection|] == selection;
    current := PySlice(all, start, end);
  }
}
