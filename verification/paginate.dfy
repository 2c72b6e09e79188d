/**
 * Fixed-size pagination of an ordered selection, as every feed view does it with
 * `Paginator(objects, PAG_CONST)` and `paginator.get_page(request.GET.get("page"))`.
 */
module Paginate {
  import opened Common

  /** PAG_CONST: the number of items on a full page. */
  const PageSize: nat := 10

  datatype Page<T> = Page(items: seq<T>, number: nat, numPages: nat)

  function Min(a: int, b: int): int { if a <= b then a else b }

  /** The page count of a selection of `count` items; an empty selection still has one (empty) page. */
  function NumPages(count: nat): (n: nat)
    ensures 1 <= n
    ensures count == 0 ==> n == 1
    ensures count > 0 ==> (n - 1) * PageSize < count <= n * PageSize
  {
    if count == 0 then 1 else (count + PageSize - 1) / PageSize
  }

  /**
   * The page that get_page serves for the raw `?page=` parameter. `None` stands for a parameter
   * that is missing or not an integer: page 1. A number outside 1..NumPages (below 1 as well as
   * above the last page) is answered with the last page.
   */
  function ResolvePage(count: nat, requested: Option<int>): (k: nat)
    ensures 1 <= k <= NumPages(count)
    ensures requested.None? ==> k == 1
    ensures requested.Some? && 1 <= requested.value <= NumPages(count) ==> k == requested.value
    ensures requested.Some? && !(1 <= requested.value <= NumPages(count)) ==> k == NumPages(count)
  {
    match requested
    case None => 1
    case Some(j) => if 1 <= j <= NumPages(count) then j else NumPages(count)
  }

  /** Page `k` (1-indexed): the items at offsets [(k-1)·PageSize, k·PageSize) of `s`. */
  function PageAt<T>(s: seq<T>, k: nat): (r: seq<T>)
    requires 1 <= k <= NumPages(|s|)
    ensures |r| == if k < NumPages(|s|) then PageSize else |s| - (k - 1) * PageSize
    ensures forall i :: 0 <= i < |r| ==> r[i] == s[(k - 1) * PageSize + i]
    ensures |s| > 0 ==> |r| > 0
  {
    var n := NumPages(|s|);
    assert k < n ==> k * PageSize <= (n - 1) * PageSize;
    s[(k - 1) * PageSize .. Min(k * PageSize, |s|)]
  }

  /** The page the view puts in its context: the resolved number, its items and the page count. */
  function GetPage<T>(s: seq<T>, requested: Option<int>): (p: Page<T>)
    ensures p.numPages == NumPages(|s|) && p.number == ResolvePage(|s|, requested)
    ensures p.items == PageAt(s, p.number)
    ensures |p.items| <= PageSize
  {
    var k := ResolvePage(|s|, requested);
    Page(PageAt(s, k), k, NumPages(|s|))
  }

  /** Pages 1..k of `s`, concatenated. */
  function PagesUpTo<T>(s: seq<T>, k: nat): seq<T>
    requires k <= NumPages(|s|)
  {
    if k == 0 then [] else PagesUpTo(s, k - 1) + PageAt(s, k)
  }

  /** The first k pages together are the first min(k·PageSize, |s|) items. */
  lemma {:induction false} PagesUpToIsPrefix<T>(s: seq<T>, k: nat)
    requires k <= NumPages(|s|)
    ensures PagesUpTo(s, k) == s[..Min(k * PageSize, |s|)]
  {
    if k > 0 {
      PagesUpToIsPrefix(s, k - 1);
      var n := NumPages(|s|);
      assert (k - 1) * PageSize < |s| || |s| == 0;
      var lo, hi := Min((k - 1) * PageSize, |s|), Min(k * PageSize, |s|);
      assert |s| > 0 ==> lo == (k - 1) * PageSize;
      if |s| == 0 {
        assert PageAt(s, k) == [];
      } else {
        var page := PageAt(s, k);
        assert |page| == hi - lo;
        assert page == s[lo..hi];
        assert s[..lo] + s[lo..hi] == s[..hi];
      }
    }
  }

  /**
   * The pages of a feed partition its selection: pages 1..NumPages, concatenated, are the
   * selection itself, so no item is left out and none is shown twice.
   */
  lemma PagesPartition<T>(s: seq<T>)
    ensures PagesUpTo(s, NumPages(|s|)) == s
    ensures multiset(PagesUpTo(s, NumPages(|s|))) == multiset(s)
  {
    PagesUpToIsPrefix(s, NumPages(|s|));
    assert s[..|s|] == s;
  }

  /** Item i of the selection is item i % PageSize of page i / PageSize + 1, and of no other page. */
  lemma ItemPage<T>(s: seq<T>, i: int, k: nat, j: int)
    requires 0 <= i < |s|
    requires 1 <= k <= NumPages(|s|) && 0 <= j < |PageAt(s, k)|
    ensures 1 <= i / PageSize + 1 <= NumPages(|s|)
    ensures PageAt(s, i / PageSize + 1)[i % PageSize] == s[i]
    ensures (k - 1) * PageSize + j == i <==> k == i / PageSize + 1 && j == i % PageSize
  {
    var n := NumPages(|s|);
    var q := i / PageSize;
    assert q * PageSize <= i < (q + 1) * PageSize;
    assert |PageAt(s, q + 1)| > i % PageSize by {
      if q + 1 == n {
        assert |PageAt(s, q + 1)| == |s| - q * PageSize;
      }
    }
  }
}
