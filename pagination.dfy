/**
 * The home feed's pagination (blogapp/views.py:15-25): Django's Paginator
 * with 5 items per page, no orphans and an empty first page allowed, and
 * the view's recovery policy for a bad `page` parameter.
 *
 * The raw query string is already classified: either it is not an integer
 * (this includes a missing parameter) or it is the integer `n`.
 */
module Pagination {

  /** `Paginator(tous_les_articles, 5)` */
  const PageSize: nat := 5

  datatype PageToken = NotAnInteger | Number(n: int)

  /** A page as handed to the template: its items, its number and the number of pages. */
  datatype Page<T> = Page(items: seq<T>, number: nat, numPages: nat)
  {
    predicate HasNext() { number < numPages }
    predicate HasPrevious() { number > 1 }
  }

  /**
   * `Paginator.num_pages`: enough pages of `PageSize` for `count` items,
   * and one page even for no items at all.
   */
  function NumPages(count: nat): (r: nat)
    ensures r >= 1
    ensures count == 0 ==> r == 1
    ensures count > 0 ==> (r - 1) * PageSize < count <= r * PageSize
  {
    if count == 0 then 1 else (count + PageSize - 1) / PageSize
  }

  /** `Paginator.validate_number` accepts the integer `n`, i.e. it raises neither exception. */
  predicate InRange(n: int, count: nat)
  {
    1 <= n <= NumPages(count)
  }

  /**
   * The page number the view ends up showing: page 1 for
   * `PageNotAnInteger`, the last page for `EmptyPage` (an integer below 1
   * or above the number of pages), otherwise the page asked for.
   */
  function SelectPage(token: PageToken, count: nat): (p: nat)
    ensures 1 <= p <= NumPages(count)
    ensures token.NotAnInteger? ==> p == 1
    ensures token.Number? && InRange(token.n, count) ==> p == token.n
    ensures token.Number? && !InRange(token.n, count) ==> p == NumPages(count)
  {
    match token
    case NotAnInteger => 1
    case Number(n) => if InRange(n, count) then n else NumPages(count)
  }

  /** Where page `p` starts in the list. */
  function Bottom(p: nat): nat
    requires p >= 1
  {
    (p - 1) * PageSize
  }

  /**
   * `Paginator.page(p)` for a valid `p`: the items from `(p - 1) * 5` up to
   * `p * 5`, cut at the end of the list.
   */
  function PageItems<T>(items: seq<T>, p: nat): (r: seq<T>)
    requires 1 <= p <= NumPages(|items|)
    ensures |r| <= PageSize && Bottom(p) + |r| <= |items|
    ensures r == items[Bottom(p)..Bottom(p) + |r|]
    ensures p < NumPages(|items|) ==> |r| == PageSize
    ensures p == NumPages(|items|) ==> Bottom(p) + |r| == |items|
    ensures items != [] ==> r != []
  {
    var bottom := Bottom(p);
    var top := if bottom + PageSize >= |items| then |items| else bottom + PageSize;
    items[bottom..top]
  }

  /** `accueil_view`'s page: never an error, whatever the token and however many items. */
  function Paginate<T>(items: seq<T>, token: PageToken): (pg: Page<T>)
    ensures pg.numPages == NumPages(|items|)
    ensures 1 <= pg.number <= pg.numPages
    ensures pg.number == SelectPage(token, |items|)
    ensures pg.items == PageItems(items, pg.number)
  {
    var p := SelectPage(token, |items|);
    Page(PageItems(items, p), p, NumPages(|items|))
  }

  /** A parameter that is not an integer shows the same page as `?page=1`. */
  lemma NotAnIntegerIsFirstPage<T>(items: seq<T>)
    ensures Paginate(items, NotAnInteger) == Paginate(items, Number(1))
    ensures !Paginate(items, NotAnInteger).HasPrevious()
  {
  }

  /** An integer out of range, too small or too large, shows the same page as the last page. */
  lemma OutOfRangeIsLastPage<T>(items: seq<T>, n: int)
    requires !InRange(n, |items|)
    ensures Paginate(items, Number(n)) == Paginate(items, Number(NumPages(|items|)))
    ensures !Paginate(items, Number(n)).HasNext()
  {
  }

  /** Pages 1 to `k`, one after the other. */
  function FirstPages<T>(items: seq<T>, k: nat): seq<T>
    requires k <= NumPages(|items|)
  {
    if k == 0 then [] else FirstPages(items, k - 1) + PageItems(items, k)
  }

  /** The first `k` pages hold the first `k * 5` items, in order. */
  lemma {:induction false} FirstPagesArePrefix<T>(items: seq<T>, k: nat)
    requires k <= NumPages(|items|)
    ensures k * PageSize <= |items| ==> FirstPages(items, k) == items[..k * PageSize]
    ensures k * PageSize > |items| ==> FirstPages(items, k) == items
  {
    if k > 0 {
      FirstPagesArePrefix(items, k - 1);
      var page := PageItems(items, k);
      assert Bottom(k) == (k - 1) * PageSize;
      if items != [] {
        assert (k - 1) * PageSize <= |items|;
        assert FirstPages(items, k - 1) == items[..Bottom(k)];
        assert items[..Bottom(k)] + page == items[..Bottom(k) + |page|];
      }
    }
  }

  /**
   * The pages split the list: read one after the other they give back
   * every item once, in the list's order, so no item is on two pages and
   * none is on no page.
   */
  lemma PagesCoverAll<T>(items: seq<T>)
    ensures FirstPages(items, NumPages(|items|)) == items
  {
    var k := NumPages(|items|);
    FirstPagesArePrefix(items, k);
    if k * PageSize <= |items| {
      assert items[..k * PageSize] == items;
    }
  }

  /** The example of twelve items: pages of 5, 5 and 2; "abc" gives page 1 and 99 gives page 3. */
  lemma TwelveItems<T>(items: seq<T>)
    requires |items| == 12
    ensures NumPages(|items|) == 3
    ensures Paginate(items, Number(1)).items == items[..5]
    ensures Paginate(items, Number(3)).items == items[10..]
    ensures Paginate(items, NotAnInteger) == Paginate(items, Number(1))
    ensures Paginate(items, Number(99)) == Paginate(items, Number(3))
  {
  }
}
