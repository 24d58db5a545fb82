/** The page-window calculator: from the fetched list of posts it derives how
    many pages exist and groups the zero-based page indices into windows of
    navigation buttons. */
module PageArray {
  import opened Dto

  /** Posts shown on one page. */
  const PageSize: nat := 5
  /** Page buttons shown together in one window. */
  const WindowSize: nat := 5

  /** The navigation model handed to the list view. */
  datatype PageModel = PageModel(totalPage: nat, pages: seq<seq<nat>>)

  /** Number of pages needed for `n` posts: the ceiling of `n / PageSize`. */
  function TotalPages(n: nat): (t: nat)
    ensures PageSize * t >= n
    ensures t > 0 ==> PageSize * (t - 1) < n
  {
    (n + PageSize - 1) / PageSize
  }

  /** The flat list of zero-based page indices `[0, 1, ..., t-1]`. */
  function Range(t: nat): (r: seq<nat>)
    ensures |r| == t
    ensures forall i :: 0 <= i < t ==> r[i] == i
  {
    seq(t, i => i)
  }

  /** Concatenation of a list of groups, in order. */
  function Flatten<T>(groups: seq<seq<T>>): seq<T>
  {
    if groups == [] then [] else groups[0] + Flatten(groups[1..])
  }

  lemma FlattenCons<T>(g: seq<T>, rest: seq<seq<T>>)
    ensures Flatten([g] + rest) == g + Flatten(rest)
  {
    assert ([g] + rest)[1..] == rest;
  }

  /** Number of windows needed for `n` entries: the ceiling of `n / WindowSize`. */
  function WindowCount(n: nat): nat
  {
    (n + WindowSize - 1) / WindowSize
  }

  /** What repeatedly splicing the first `WindowSize` entries off `s` yields:
      consecutive groups of `s`, each full except possibly the last. */
  function Chunked<T>(s: seq<T>): (r: seq<seq<T>>)
    ensures |r| == WindowCount(|s|)
    ensures Flatten(r) == s
    ensures forall k :: 0 <= k < |r| ==> 1 <= |r[k]| <= WindowSize
    ensures forall k :: 0 <= k < |r| - 1 ==> |r[k]| == WindowSize
    decreases |s|
  {
    if |s| == 0 then []
    else if |s| <= WindowSize then
      assert Flatten([s]) == s + Flatten([]) by { FlattenCons(s, []); }
      [s]
    else
      var rest := Chunked(s[WindowSize..]);
      FlattenCons(s[..WindowSize], rest);
      assert s[..WindowSize] + s[WindowSize..] == s;
      [s[..WindowSize]] + rest
  }

  /** Group `k` of `Chunked(s)` is the slice of `s` that starts at
      `WindowSize * k`. */
  lemma {:induction false} ChunkedAt<T>(s: seq<T>, k: nat)
    requires k < |Chunked(s)|
    ensures WindowSize * k < |s|
    ensures Chunked(s)[k] == s[WindowSize * k .. Min(WindowSize * k + WindowSize, |s|)]
    decreases k
  {
    if k > 0 {
      assert |s| > WindowSize;
      var tail := s[WindowSize..];
      assert Chunked(s) == [s[..WindowSize]] + Chunked(tail);
      ChunkedAt(tail, k - 1);
      assert tail[WindowSize * (k - 1) .. Min(WindowSize * (k - 1) + WindowSize, |tail|)]
          == s[WindowSize * k .. Min(WindowSize * k + WindowSize, |s|)];
    }
  }

  function Min(a: int, b: int): int
  {
    if a <= b then a else b
  }

  /** The windows of page indices for `t` pages, as the calculator builds them. */
  function Windows(t: nat): seq<seq<nat>>
  {
    Chunked(Range(t))
  }

  /** The calculator as a function of its input: absent data gives the empty
      model, a loaded list gives `TotalPages` pages grouped into windows. */
  function Model(posts: Option<seq<Board>>): PageModel
  {
    match posts
    case None => PageModel(0, [])
    case Some(list) =>
      var t := TotalPages(|list|);
      PageModel(t, Windows(t))
  }

  /** The grouping step: a loop that, once per window, cuts the first
      `WindowSize` entries (or whatever is left) off the remaining list. */
  method GroupIntoWindows<T>(flat: seq<T>) returns (pages: seq<seq<T>>)
    ensures pages == Chunked(flat)
  {
    var rest := flat;
    pages := [];
    var count := WindowCount(|flat|);
    for i := 0 to count
      invariant pages + Chunked(rest) == Chunked(flat)
      invariant |Chunked(rest)| == count - i
    {
      var n := Min(WindowSize, |rest|);
      assert Chunked(rest) == [rest[..n]] + Chunked(rest[n..]);
      pages := pages + [rest[..n]];
      rest := rest[n..];
    }
  }

  /** `getPageArray`: the navigation model for the fetched posts. */
  method GetPageArray(posts: Option<seq<Board>>) returns (m: PageModel)
    ensures m == Model(posts)
  {
    match posts {
      case None =>
        m := PageModel(0, []);
      case Some(list) =>
        var totalPage := TotalPages(|list|);
        var pageArray := Range(totalPage);
        var grouped := GroupIntoWindows(pageArray);
        m := PageModel(totalPage, grouped);
    }
  }

  /** Absent data yields no pages and no windows. */
  lemma AbsentIsEmpty()
    ensures Model(None) == PageModel(0, [])
  {
  }

  /** A loaded but empty list yields the same model as absent data. */
  lemma EmptyListIsEmpty(list: seq<Board>)
    requires list == []
    ensures Model(Some(list)) == Model(None)
  {
    assert Range(0) == [];
  }

  /** The windows concatenate, in order, to exactly `[0 .. t-1]`, there are
      `ceil(t / WindowSize)` of them, each holds 1 to `WindowSize` indices and
      all but the last are full. */
  lemma WindowsPartition(t: nat)
    ensures Flatten(Windows(t)) == Range(t)
    ensures |Windows(t)| == WindowCount(t)
    ensures forall k :: 0 <= k < |Windows(t)| ==> 1 <= |Windows(t)[k]| <= WindowSize
    ensures forall k :: 0 <= k < |Windows(t)| - 1 ==> |Windows(t)[k]| == WindowSize
  {
  }

  /** Window `k` holds the indices `WindowSize * k`, `WindowSize * k + 1`, ...
      up to `WindowSize` of them, never reaching `t`. */
  lemma WindowAt(t: nat, k: nat)
    requires k < |Windows(t)|
    ensures WindowSize * k < t
    ensures |Windows(t)[k]| == Min(WindowSize, t - WindowSize * k)
    ensures forall j :: 0 <= j < |Windows(t)[k]| ==> Windows(t)[k][j] == WindowSize * k + j
  {
    ChunkedAt(Range(t), k);
  }

  /** Every page index `i < t` lies in window `i / WindowSize` and in no
      other window. */
  lemma WindowOf(t: nat, i: nat, k: nat)
    requires i < t
    requires k < |Windows(t)|
    ensures i / WindowSize < |Windows(t)|
    ensures i in Windows(t)[k] <==> k == i / WindowSize
  {
    var home := i / WindowSize;
    assert home < WindowCount(t);
    WindowAt(t, home);
    assert Windows(t)[home][i - WindowSize * home] == i;
    WindowAt(t, k);
    if i in Windows(t)[k] {
      var j :| 0 <= j < |Windows(t)[k]| && Windows(t)[k][j] == i;
      assert i == WindowSize * k + j;
    }
  }

  /** Twelve posts make three pages, all in the first window. */
  lemma TwelvePosts(list: seq<Board>)
    requires |list| == 12
    ensures Model(Some(list)) == PageModel(3, [[0, 1, 2]])
  {
    assert Range(3) == [0, 1, 2];
  }
}
