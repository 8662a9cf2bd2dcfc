/** The pages' pagination: ten tasks per page, `Math.ceil` for the page count,
    `Array.prototype.slice` for the page, and the clamped previous/next controls. */
module Paging {

  const PageSize: nat := 10

  /** `Math.ceil(n / 10)`. */
  function TotalPages(n: nat): (t: nat)
    ensures t * PageSize >= n
    ensures t > 0 ==> (t - 1) * PageSize < n
  {
    (n + PageSize - 1) / PageSize
  }

  /** How `slice` normalises an index: negative indices count from the end, and every index
      is clipped into `[0, len]`. */
  function SliceIndex(i: int, len: nat): (k: nat)
    ensures k <= len
    ensures 0 <= i <= len ==> k == i
    ensures i > len ==> k == len
    ensures i < 0 && len + i >= 0 ==> k == len + i
    ensures len + i < 0 ==> k == 0
  {
    if i < 0 then (if len + i < 0 then 0 else len + i)
    else if i > len then len
    else i
  }

  /** `s.slice(start, end)`. */
  function JsSlice<T>(s: seq<T>, start: int, end: int): (r: seq<T>)
    ensures |r| <= |s|
    ensures forall k :: 0 <= k < |r| ==> SliceIndex(start, |s|) + k < |s| && r[k] == s[SliceIndex(start, |s|) + k]
    ensures 0 <= start <= end <= |s| ==> r == s[start..end]
    ensures 0 <= start <= |s| <= end ==> r == s[start..]
    ensures start < 0 && |s| + start >= 0 && |s| <= end ==> r == s[|s| + start..]
    ensures |s| + start <= 0 && 0 <= end <= |s| ==> r == s[..end]
    ensures start >= |s| || |s| + end <= 0 || 0 <= end <= start ==> r == []
  {
    var a := SliceIndex(start, |s|);
    var b := SliceIndex(end, |s|);
    if a < b then s[a..b] else []
  }

  /** `filteredTasks.slice((currentPage - 1) * 10, currentPage * 10)`. */
  function Page<T>(s: seq<T>, p: int): seq<T> {
    JsSlice(s, (p - 1) * PageSize, p * PageSize)
  }

  /** Page `p` holds the items with indices `[(p - 1) * 10, p * 10)` clipped to the list, so
      at most ten; a page past the last one is empty, every page up to the last is not, and
      every page before the last is full. */
  lemma PageContents<T>(s: seq<T>, p: int)
    requires p >= 1
    ensures var pg := Page(s, p);
      && |pg| <= PageSize
      && (forall k :: 0 <= k < |pg| ==> pg[k] == s[(p - 1) * PageSize + k])
      && ((p - 1) * PageSize < |s| ==> pg == s[(p - 1) * PageSize..if p * PageSize < |s| then p * PageSize else |s|])
      && (p > TotalPages(|s|) ==> pg == [])
      && (p <= TotalPages(|s|) ==> |pg| > 0)
      && (p < TotalPages(|s|) ==> |pg| == PageSize)
  {
  }

  /** Whatever the page number, even zero or negative ones that `slice` counts from the
      end, a page holds at most ten items. */
  lemma PageBound<T>(s: seq<T>, p: int)
    ensures |Page(s, p)| <= PageSize
  {
  }

  /** The first page is empty only for an empty list. */
  lemma FirstPage<T>(s: seq<T>)
    ensures Page(s, 1) == [] <==> s == []
    ensures |s| <= PageSize ==> Page(s, 1) == s
  {
    PageContents(s, 1);
  }

  /** Pages `p`, `p + 1`, ..., `p + count - 1` one after another. */
  function PagesFrom<T>(s: seq<T>, p: int, count: nat): seq<T>
    decreases count
  {
    if count == 0 then [] else Page(s, p) + PagesFrom(s, p + 1, count - 1)
  }

  lemma {:induction false} PagesFromSuffix<T>(s: seq<T>, p: nat)
    requires 1 <= p <= TotalPages(|s|)
    ensures PagesFrom(s, p, TotalPages(|s|) - p + 1) == s[(p - 1) * PageSize..]
    decreases TotalPages(|s|) - p
  {
    var t := TotalPages(|s|);
    PageContents(s, p);
    if p == t {
      assert PagesFrom(s, p + 1, 0) == [];
    } else {
      PagesFromSuffix(s, p + 1);
      assert s[(p - 1) * PageSize..] == s[(p - 1) * PageSize..p * PageSize] + s[p * PageSize..];
    }
  }

  /** The pages, in order, together are the whole list: no item is lost or repeated. */
  lemma PagesCover<T>(s: seq<T>)
    ensures PagesFrom(s, 1, TotalPages(|s|)) == s
  {
    if |s| > 0 {
      PagesFromSuffix(s, 1);
    }
  }

  /** Item `i` is on page `i / 10 + 1`, at position `i % 10`, and on no other page: distinct
      pages are disjoint. */
  lemma ItemOnOnePage<T>(s: seq<T>, i: nat, q: int)
    requires i < |s| && q >= 1
    ensures var p := i / PageSize + 1;
      && 1 <= p <= TotalPages(|s|)
      && Page(s, p)[i % PageSize] == s[i]
      && ((q - 1) * PageSize <= i < q * PageSize <==> q == p)
  {
    var p := i / PageSize + 1;
    PageContents(s, p);
    assert (p - 1) * PageSize + i % PageSize == i;
  }

  /** The "previous" control: `Math.max(1, currentPage - 1)`. */
  function PrevPage(p: int): int {
    if p - 1 < 1 then 1 else p - 1
  }

  /** The "next" control: `Math.min(totalPages, currentPage + 1)`. */
  function NextPage(total: nat, p: int): int {
    if total < p + 1 then total else p + 1
  }

  /** The controls are shown only when there is more than one page. */
  predicate ShowsPagination(total: nat) {
    total > 1
  }

  /** While the page is in range and the controls are shown, previous and next keep it in
      `[1, totalPages]`, move it by one when they can, and stay put at the ends. */
  lemma PrevNextClamp(total: nat, p: int)
    requires ShowsPagination(total) && 1 <= p <= total
    ensures 1 <= PrevPage(p) <= p && p <= NextPage(total, p) <= total
    ensures PrevPage(p) == (if p == 1 then 1 else p - 1)
    ensures NextPage(total, p) == (if p == total then total else p + 1)
  {
  }
}
