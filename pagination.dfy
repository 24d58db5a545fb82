/** The decisions the paginated list view makes: which page it is on, which
    window of page buttons it shows, the order of the rows of the current
    page, and where each navigation link points. */
module Pagination {
  import opened Dto
  import opened PageArray

  /** The `pageNumber` query value after numeric coercion: a JavaScript
      number that is not a number, or an integer. An absent parameter and
      the empty string coerce to `Finite(0)`. */
  datatype Coerced = NotANumber | Finite(value: int)

  /** `+param || 1`: the coerced value, unless it is falsy (NaN or 0), in
      which case page 1. */
  function ResolvePageNumber(c: Coerced): (p: int)
    ensures p != 0
    ensures c.Finite? && c.value != 0 ==> p == c.value
    ensures c == NotANumber || c == Finite(0) ==> p == 1
  {
    match c
    case NotANumber => 1
    case Finite(v) => if v != 0 then v else 1
  }

  /** The index into `pages` of the window for page `p` (one-based). Exact
      multiples of `WindowSize` pick the previous window, which is the same
      as taking `(p - 1) / WindowSize`. JavaScript's `p % 5 === 0` holds
      exactly when the Euclidean remainder is 0, and `Math.floor(p / 5)` is
      Euclidean division by a positive divisor, so this holds for every
      integer `p`, negative ones included. */
  function SelectedWindowIndex(p: int): (k: int)
    ensures k == (p - 1) / WindowSize
  {
    if p % WindowSize == 0 then p / WindowSize - 1 else p / WindowSize
  }

  /** `currentPages`: the selected window, or `None` where indexing `pages`
      yields `undefined`. */
  function CurrentWindow(pages: seq<seq<nat>>, p: int): (w: Option<seq<nat>>)
    ensures w.Some? <==> 1 <= p <= WindowSize * |pages|
    ensures w.Some? ==> w.value == pages[(p - 1) / WindowSize]
  {
    var k := SelectedWindowIndex(p);
    if 0 <= k < |pages| then Some(pages[k]) else None
  }

  /** The caption of a navigation link. */
  datatype Label = First | Last | Number(n: int)

  /** A link to `/react-query/get-pagination?pageNumber=<target>`. */
  datatype PageLink = PageLink(target: int, caption: Label)

  /** The "first" link. */
  function FirstLink(): PageLink
  {
    PageLink(1, First)
  }

  /** The "last" link, to the last page. */
  function LastLink(totalPage: nat): PageLink
  {
    PageLink(totalPage, Last)
  }

  /** One button per zero-based index of the selected window, pointing at and
      showing the one-based page number; nothing when no window is selected. */
  function WindowButtons(window: Option<seq<nat>>): (r: seq<PageLink>)
    ensures window.None? ==> r == []
    ensures window.Some? ==> |r| == |window.value|
    ensures window.Some? ==> forall i :: 0 <= i < |r| ==>
              r[i].target == window.value[i] + 1 && r[i].caption == Number(window.value[i] + 1)
  {
    match window
    case None => []
    case Some(indices) =>
      seq(|indices|, i requires 0 <= i < |indices| => PageLink(indices[i] + 1, Number(indices[i] + 1)))
  }

  /** The whole navigation row: "first", the window's buttons, "last". */
  function NavigationLinks(m: PageModel, p: int): (r: seq<PageLink>)
    ensures |r| >= 2
    ensures r[0].target == 1 && r[0].caption == First
    ensures r[|r| - 1].target == m.totalPage && r[|r| - 1].caption == Last
    ensures r[1..|r| - 1] == WindowButtons(CurrentWindow(m.pages, p))
  {
    [FirstLink()] + WindowButtons(CurrentWindow(m.pages, p)) + [LastLink(m.totalPage)]
  }

  /** The navigation row the view renders for the fetched posts and the raw
      query value. */
  function ViewLinks(posts: Option<seq<Board>>, c: Coerced): seq<PageLink>
  {
    NavigationLinks(Model(posts), ResolvePageNumber(c))
  }

  /** For every page that exists, the selected window contains that page's
      zero-based index, and the navigation row holds a button for it. */
  lemma CurrentPageShown(posts: Option<seq<Board>>, c: Coerced)
    requires 1 <= ResolvePageNumber(c) <= Model(posts).totalPage
    ensures CurrentWindow(Model(posts).pages, ResolvePageNumber(c)).Some?
    ensures ResolvePageNumber(c) - 1 in CurrentWindow(Model(posts).pages, ResolvePageNumber(c)).value
    ensures PageLink(ResolvePageNumber(c), Number(ResolvePageNumber(c))) in ViewLinks(posts, c)
  {
    var m := Model(posts);
    var p := ResolvePageNumber(c);
    var t := m.totalPage;
    assert m.pages == Windows(t);
    var k := (p - 1) / WindowSize;
    WindowOf(t, p - 1, 0);
    WindowAt(t, k);
    var j := p - 1 - WindowSize * k;
    assert m.pages[k][j] == p - 1;
    var links := ViewLinks(posts, c);
    assert links[1 + j] == PageLink(p, Number(p));
  }

  /** Every window button points at a page that exists. */
  lemma ButtonsInRange(t: nat, p: int)
    ensures forall l :: l in WindowButtons(CurrentWindow(Windows(t), p)) ==> 1 <= l.target <= t
  {
    var w := CurrentWindow(Windows(t), p);
    if w.Some? {
      var k := (p - 1) / WindowSize;
      WindowAt(t, k);
      assert forall i :: 0 <= i < |w.value| ==> w.value[i] < t;
    }
  }

  /** Following any link of the navigation row lands on a page that exists
      whenever there is at least one post; with no posts every link lands on
      page 1 and no window buttons are shown. */
  lemma LinksLandOnExistingPages(posts: Option<seq<Board>>, c: Coerced)
    ensures Model(posts).totalPage == 0 ==> ViewLinks(posts, c) == [FirstLink(), LastLink(0)]
    ensures Model(posts).totalPage == 0 ==>
              forall l :: l in ViewLinks(posts, c) ==> ResolvePageNumber(Finite(l.target)) == 1
    ensures Model(posts).totalPage > 0 ==>
              forall l :: l in ViewLinks(posts, c) ==>
                1 <= ResolvePageNumber(Finite(l.target)) <= Model(posts).totalPage
  {
    var m := Model(posts);
    var links := ViewLinks(posts, c);
    ButtonsInRange(m.totalPage, ResolvePageNumber(c));
    if posts.Some? {
      assert m.pages == Windows(m.totalPage);
    }
    if m.totalPage == 0 {
      assert m.pages == [] by {
        if posts.Some? {
          assert Range(0) == [];
        }
      }
      assert links == [FirstLink(), LastLink(0)];
    } else {
      forall l | l in links
        ensures 1 <= ResolvePageNumber(Finite(l.target)) <= m.totalPage
      {
        var i :| 0 <= i < |links| && links[i] == l;
        if 0 < i < |links| - 1 {
          assert l in links[1..|links| - 1];
        }
      }
    }
  }

  /** Thirty-one posts make seven pages in two windows; page 5 still selects
      the first window and page 6 the second. */
  lemma ThirtyOnePosts(list: seq<Board>)
    requires |list| == 31
    ensures Model(Some(list)) == PageModel(7, [[0, 1, 2, 3, 4], [5, 6]])
    ensures CurrentWindow(Model(Some(list)).pages, 5) == Some([0, 1, 2, 3, 4])
    ensures CurrentWindow(Model(Some(list)).pages, 6) == Some([5, 6])
  {
    assert TotalPages(31) == 7;
    var flat := Range(7);
    assert flat == [0, 1, 2, 3, 4, 5, 6];
    assert flat[..5] == [0, 1, 2, 3, 4];
    assert flat[5..] == [5, 6];
    assert Chunked(flat) == [flat[..5]] + Chunked(flat[5..]);
    assert Chunked(flat[5..]) == [[5, 6]];
  }

  /** Rows ordered newest first: non-increasing `id`, so the first row has the
      largest `id` of the page. */
  ghost predicate NewestFirst(s: seq<Board>)
  {
    forall i, j :: 0 <= i < j < |s| ==> s[i].id >= s[j].id
  }

  /** Exchanges two rows. */
  method Swap(a: array<Board>, i: nat, j: nat)
    requires i < j < a.Length
    modifies a
    ensures a[..] == old(a[..])[i := old(a[j])][j := old(a[i])]
    ensures multiset(a[..]) == multiset(old(a[..]))
  {
    a[i], a[j] := a[j], a[i];
  }

  /** `data.sort((a, b) => b.id - a.id)` on the fetched page, in place:
      an insertion sort by descending `id`. */
  method SortNewestFirst(a: array<Board>)
    modifies a
    ensures NewestFirst(a[..])
    ensures multiset(a[..]) == multiset(old(a[..]))
  {
    var i := 0;
    while i < a.Length
      invariant 0 <= i <= a.Length
      invariant NewestFirst(a[..i])
      invariant multiset(a[..]) == multiset(old(a[..]))
    {
      var j := i;
      while j > 0 && a[j - 1].id < a[j].id
        invariant 0 <= j <= i
        invariant forall k, l :: 0 <= k < l <= i && k != j && l != j ==> a[k].id >= a[l].id
        invariant forall l :: j < l <= i ==> a[j].id >= a[l].id
        invariant multiset(a[..]) == multiset(old(a[..]))
      {
        Swap(a, j - 1, j);
        j := j - 1;
      }
      i := i + 1;
    }
    assert a[..a.Length] == a[..];
  }
}
