/** The paging arithmetic shared by the settings panels and the role pickers:
    page counts, the clamp of a requested page into range, the slice shown on a
    page and the previous/next buttons. */
module Paging {
  import opened Wrappers

  /** A JavaScript number given as a page, after `Math.trunc` (which keeps NaN and the infinities). */
  datatype PageInput = Finite(n: int) | NaN | PosInfinity | NegInfinity

  /** The page index a builder ends up with: an integer, or NaN when nothing guarded against it. */
  datatype PageIndex = At(index: int) | NotANumber

  /** The previous/next buttons: their target pages (as written into the custom ids) and whether each is disabled. */
  datatype NavButtons = NavButtons(previousTarget: PageIndex, nextTarget: PageIndex, previousDisabled: bool, nextDisabled: bool)

  const PickerPageSize := 25
  const PanelPageSize := 8

  function Max(a: int, b: int): int { if a >= b then a else b }
  function Min(a: int, b: int): int { if a <= b then a else b }

  /** `Math.ceil(n / size)`. */
  function CeilDiv(n: nat, size: nat): (r: nat)
    requires size > 0
    ensures r * size >= n
    ensures r == 0 || (r - 1) * size < n
    ensures r == 0 <==> n == 0
  {
    (n + size - 1) / size
  }

  /** `Math.min(Math.max(0, page), totalPages - 1)`. */
  function Clamp(page: int, totalPages: nat): (r: nat)
    requires totalPages >= 1
    ensures r < totalPages
    ensures 0 <= page < totalPages ==> r == page
    ensures page < 0 ==> r == 0
    ensures page >= totalPages ==> r == totalPages - 1
  {
    Min(Max(0, page), totalPages - 1)
  }

  /** `xs.slice(start, start + size)` for a non-negative `start`. */
  function Window<T>(xs: seq<T>, start: nat, size: nat): (w: seq<T>)
    ensures |w| <= size
    ensures start <= |xs| ==> w == xs[start..Min(start + size, |xs|)]
    ensures start >= |xs| ==> w == []
  {
    if start >= |xs| then [] else xs[start..Min(start + size, |xs|)]
  }

  /** The items on page `page` of `xs` cut into pages of `size`. */
  function PageSlice<T>(xs: seq<T>, page: nat, size: nat): seq<T> {
    Window(xs, page * size, size)
  }

  /** Euclidean division places `i` between `p * size` and the start of the next page. */
  lemma DivBounds(i: nat, size: nat)
    requires size > 0
    ensures (i / size) * size <= i < (i / size) * size + size
  {
    assert i == (i / size) * size + i % size;
  }

  /** Division by `size` is monotone against a multiple of `size`. */
  lemma MultipleBelow(a: nat, b: nat, size: nat)
    requires size > 0 && a * size <= b
    ensures a <= b / size
  {
    DivBounds(b, size);
    assert a * size < (b / size + 1) * size;
  }

  /** Every item lands on the page `i / size`, which lies inside the page count. */
  lemma ItemOnItsPage<T>(xs: seq<T>, size: nat, i: nat)
    requires size > 0 && i < |xs|
    ensures i / size < CeilDiv(|xs|, size)
    ensures xs[i] in PageSlice(xs, i / size, size)
  {
    var p := i / size;
    DivBounds(i, size);
    MultipleBelow(p + 1, |xs| + size - 1, size);
    var w := PageSlice(xs, p, size);
    assert w[i - p * size] == xs[i];
  }

  /** Consecutive pages are back to back: together they are the whole list. */
  lemma PagesConcatenate<T>(xs: seq<T>, size: nat, pages: nat)
    requires size > 0
    requires pages * size <= |xs|
    ensures xs[..pages * size] == ConcatPages(xs, size, pages)
  {
    if pages > 0 {
      PagesConcatenate(xs, size, pages - 1);
      assert xs[..pages * size] == xs[..(pages - 1) * size] + xs[(pages - 1) * size..pages * size];
    }
  }

  function ConcatPages<T>(xs: seq<T>, size: nat, pages: nat): seq<T> {
    if pages == 0 then [] else ConcatPages(xs, size, pages - 1) + PageSlice(xs, pages - 1, size)
  }

  /** The previous/next buttons for a clamped page: previous points one page back and is
      disabled on the first page, next points one page on and is disabled on the last. */
  function Nav(current: nat, totalPages: nat): (b: NavButtons)
    ensures b.previousDisabled <==> current == 0
    ensures b.nextDisabled <==> current + 1 >= totalPages
    ensures b.previousTarget == At(current - 1) && b.nextTarget == At(current + 1)
  {
    NavButtons(At(current - 1), At(current + 1), current <= 0, current >= totalPages - 1)
  }

  /** The buttons when the page is NaN: both targets are NaN and neither comparison disables anything. */
  function NavAt(current: PageIndex, totalPages: nat): (b: NavButtons)
    requires current.At? ==> current.index >= 0
    ensures current.At? ==> b == Nav(current.index, totalPages)
    ensures current.NotANumber? ==> !b.previousDisabled && !b.nextDisabled
  {
    match current
    case At(k) => Nav(k, totalPages)
    case NotANumber => NavButtons(NotANumber, NotANumber, false, false)
  }

  /** The page a picker settles on. With the `Number.isFinite` guard a non-finite request
      means page 0; without it `Math.max`/`Math.min` let NaN through and saturate the infinities. */
  function SettlePage(page: PageInput, totalPages: nat, finiteGuard: bool): (r: PageIndex)
    requires totalPages >= 1
    ensures page.Finite? ==> r == At(Clamp(page.n, totalPages))
    ensures finiteGuard && !page.Finite? ==> r == At(0)
    ensures r.At? ==> 0 <= r.index < totalPages
    ensures r.NotANumber? <==> !finiteGuard && page.NaN?
    ensures !finiteGuard && page.PosInfinity? ==> r == At(totalPages - 1)
    ensures !finiteGuard && page.NegInfinity? ==> r == At(0)
  {
    match page
    case Finite(n) => At(Clamp(n, totalPages))
    case NaN => if finiteGuard then At(0) else NotANumber
    case PosInfinity => if finiteGuard then At(0) else At(totalPages - 1)
    case NegInfinity => At(0)
  }

  /** What a role picker shows: the roles on the page, the page it settled on, the page
      count, the number of roles and the navigation row. */
  datatype PickerPage<T> = PickerPage(items: seq<T>, currentPage: PageIndex, totalPages: nat, totalItems: nat, navigation: Option<NavButtons>)

  /** A page of at most 25 roles out of `roles`; `None` when there is no role at all. */
  function PickPage<T>(roles: seq<T>, page: PageInput, finiteGuard: bool): (r: Option<PickerPage<T>>)
    ensures r.None? <==> roles == []
    ensures r.Some? ==> r.value.totalItems == |roles| && r.value.totalPages == CeilDiv(|roles|, PickerPageSize) >= 1
    ensures r.Some? ==> r.value.currentPage == SettlePage(page, r.value.totalPages, finiteGuard)
    ensures r.Some? ==> |r.value.items| <= PickerPageSize
    ensures r.Some? && r.value.currentPage.At? ==> r.value.items == PageSlice(roles, r.value.currentPage.index, PickerPageSize)
    ensures r.Some? && r.value.currentPage.NotANumber? ==> r.value.items == []
    ensures r.Some? ==> (r.value.navigation.Some? <==> r.value.totalPages > 1)
    ensures r.Some? && r.value.navigation.Some? ==> r.value.navigation.value == NavAt(r.value.currentPage, r.value.totalPages)
  {
    if roles == [] then None
    else
      var total := CeilDiv(|roles|, PickerPageSize);
      var current := SettlePage(page, total, finiteGuard);
      var items := if current.At? then PageSlice(roles, current.index, PickerPageSize) else [];
      Some(PickerPage(items, current, total, |roles|, if total > 1 then Some(NavAt(current, total)) else None))
  }

  /** A page inside the page count starts on an existing item, so it is never empty. */
  lemma PageInRangeNotEmpty<T>(xs: seq<T>, size: nat, page: nat)
    requires size > 0 && page < CeilDiv(|xs|, size)
    ensures |PageSlice(xs, page, size)| >= 1
  {
    var c := CeilDiv(|xs|, size);
    assert page * size <= (c - 1) * size;
  }

  /** Every page a picker settles on, whatever was requested, shows at least one role. */
  lemma PickedPageNotEmpty<T>(roles: seq<T>, page: PageInput, finiteGuard: bool)
    requires roles != [] && SettlePage(page, CeilDiv(|roles|, PickerPageSize), finiteGuard).At?
    ensures |PickPage(roles, page, finiteGuard).value.items| >= 1
  {
    var total := CeilDiv(|roles|, PickerPageSize);
    PageInRangeNotEmpty(roles, PickerPageSize, SettlePage(page, total, finiteGuard).index);
  }

  /** Following an enabled previous or next button lands on the neighbouring page. */
  lemma NavigationMovesOnePage(current: nat, totalPages: nat)
    requires current < totalPages
    ensures !Nav(current, totalPages).nextDisabled ==> Clamp(Nav(current, totalPages).nextTarget.index, totalPages) == current + 1
    ensures !Nav(current, totalPages).previousDisabled ==> Clamp(Nav(current, totalPages).previousTarget.index, totalPages) == current - 1
  {
  }

  /** The settings panels' page count: `max(1, ceil(a / 8), ceil(b / 8))`. */
  function PanelTotalPages(a: nat, b: nat): (r: nat)
    ensures r >= 1
    ensures r * PanelPageSize >= a && r * PanelPageSize >= b
    ensures r == 1 || (r - 1) * PanelPageSize < a || (r - 1) * PanelPageSize < b
  {
    Max(1, Max(CeilDiv(a, PanelPageSize), CeilDiv(b, PanelPageSize)))
  }

  /** One page of a settings panel: the page it settled on, the page count, the same window
      applied to both lists, and the page row (absent when everything fits on one page). */
  datatype PanelView<A, B> = PanelView(current: nat, totalPages: nat, first: seq<A>, second: seq<B>, pageRow: Option<NavButtons>)

  function PanelPage<A, B>(first: seq<A>, second: seq<B>, page: int): (v: PanelView<A, B>)
    ensures v.totalPages == PanelTotalPages(|first|, |second|)
    ensures v.current == Clamp(page, v.totalPages)
    ensures v.first == PageSlice(first, v.current, PanelPageSize)
    ensures v.second == PageSlice(second, v.current, PanelPageSize)
    ensures v.pageRow.None? <==> v.totalPages <= 1
    ensures v.pageRow.Some? ==> v.pageRow.value == Nav(v.current, v.totalPages)
  {
    var total := PanelTotalPages(|first|, |second|);
    var current := Clamp(page, total);
    PanelView(current, total, PageSlice(first, current, PanelPageSize), PageSlice(second, current, PanelPageSize),
              PanelPageRow(current, total))
  }

  /** `buildFacPanelPageRow`: no row for a single page, otherwise the buttons around the clamped page. */
  function PanelPageRow(page: int, totalPages: nat): (r: Option<NavButtons>)
    ensures r.None? <==> totalPages <= 1
    ensures r.Some? ==> r.value == Nav(Clamp(page, totalPages), totalPages)
  {
    if totalPages <= 1 then None else Some(Nav(Clamp(page, totalPages), totalPages))
  }

  /** Every entry of either list is shown on some page of the panel. */
  lemma PanelShowsEveryEntry<A, B>(first: seq<A>, second: seq<B>, i: nat)
    ensures i < |first| ==> exists p :: 0 <= p < PanelTotalPages(|first|, |second|) && first[i] in PanelPage(first, second, p).first
    ensures i < |second| ==> exists p :: 0 <= p < PanelTotalPages(|first|, |second|) && second[i] in PanelPage(first, second, p).second
  {
    var total := PanelTotalPages(|first|, |second|);
    if i < |first| {
      ItemOnItsPage(first, PanelPageSize, i);
      MultipleBelow(i / PanelPageSize + 1, total * PanelPageSize, PanelPageSize);
      DivBounds(i, PanelPageSize);
      assert PanelPage(first, second, i / PanelPageSize).first == PageSlice(first, i / PanelPageSize, PanelPageSize);
    }
    if i < |second| {
      ItemOnItsPage(second, PanelPageSize, i);
      DivBounds(i, PanelPageSize);
      assert PanelPage(first, second, i / PanelPageSize).second == PageSlice(second, i / PanelPageSize, PanelPageSize);
    }
  }
}
