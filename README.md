# Client-side pagination of the board list

This project models the pagination arithmetic of a small board application
(a list of posts fetched from a REST backend and shown five per page). Two
parts are modelled:

- the **page-window calculator** `getPageArray`: from the fetched list of
  posts (or the absence of one while it loads) it computes `totalPage`, the
  number of pages of five posts, and `pages`, the zero-based page indices
  `[0 .. totalPage-1]` grouped into windows of five navigation buttons by
  repeatedly splicing the first five indices off the flat list;
- the **decisions of the paginated list view** `QueryGetPagination`: the
  current page number taken from the `pageNumber` query value (1 when it is
  not a number or is 0), the window of buttons selected for that page, the
  newest-first ordering of the fetched page of rows, and the targets of the
  "first", per-page and "last" links.

Modules: `Dto` (the `Board` record and an `Option`), `PageArray` (the
calculator; `GetPageArray` is the operation, `Model` the function that
specifies it, `GroupIntoWindows` the splicing loop specified by `Chunked`)
and `Pagination` (the view's decisions, proved together with the
calculator: for every page `1 <= p <= totalPage` the shown window contains
that page's button, and, whenever there is at least one post, every link
lands on an existing page).

Windows group page indices, not post indices: twelve posts make three
pages, all in the single window `[[0,1,2]]` (`PageArray.TwelvePosts`).

JavaScript arithmetic is stated exactly for integer page numbers: `p % 5 === 0`
holds exactly when Dafny's Euclidean remainder is 0, and `Math.floor(p / 5)`
equals Dafny's `p / 5` for a positive divisor, negative `p` included. A
negative page number (`?pageNumber=-3`) passes the `|| 1` default unchanged
and selects no window, as in the code.

## Model

| member | source | states |
|---|---|---|
| `PageArray.TotalPages` | src/utils/getPageArray.ts:5 | the page count is the ceiling of posts / 5: `totalPage` pages of five hold every post and one page fewer would not |
| `PageArray.Range` | src/utils/getPageArray.ts:7-9 | the flat index list has `totalPage` entries and entry `i` is `i` |
| `PageArray.Chunked` | src/utils/getPageArray.ts:11-13 | the splice grouping yields `ceil(n/5)` groups that concatenate back to the input, each of 1 to 5 entries, all but the last exactly 5 |
| `PageArray.ChunkedAt` | src/utils/getPageArray.ts:13 | group `k` is the slice of the input starting at `5k` and ending at `5k+5` or the end of the input |
| `PageArray.GroupIntoWindows` | src/utils/getPageArray.ts:11-13 | the loop that splices up to five entries off the remaining list, `ceil(n/5)` times, returns exactly `Chunked` of its input |
| `PageArray.GetPageArray` | src/utils/getPageArray.ts:3-25 | the calculator returns `Model(posts)`: the empty model for absent data, otherwise `TotalPages` pages and their windows |
| `PageArray.AbsentIsEmpty` | src/utils/getPageArray.ts:19-23 | absent data gives `totalPage = 0` and no windows |
| `PageArray.EmptyListIsEmpty` | src/utils/getPageArray.ts:4-13 | a loaded empty list gives the same model as absent data |
| `PageArray.WindowsPartition` | src/utils/getPageArray.ts:7-13 | the windows concatenate in order to `[0 .. totalPage-1]`, number `ceil(totalPage/5)`, hold 1 to 5 indices each, all but the last full |
| `PageArray.WindowAt` | src/utils/getPageArray.ts:11-13 | window `k` holds `min(5, totalPage-5k)` indices, the `j`-th being `5k+j` |
| `PageArray.WindowOf` | src/utils/getPageArray.ts:11-13 | page index `i < totalPage` lies in window `i/5` and in no other window |
| `PageArray.TwelvePosts` | src/utils/getPageArray.ts:3-18 | twelve posts give three pages in the single window `[0,1,2]` |
| `Pagination.ResolvePageNumber` | src/pages/QueryGetPagination.tsx:22 | the page number is the coerced value unless that is NaN or 0, in which case 1; it is never 0 |
| `Pagination.SelectedWindowIndex` | src/pages/QueryGetPagination.tsx:55-60 | the two-branch window index (previous window on exact multiples of 5) equals `(p-1)/5` for every integer `p` |
| `Pagination.CurrentWindow` | src/pages/QueryGetPagination.tsx:55-60 | a window is selected exactly when `1 <= p <= 5 * number of windows`, and it is window `(p-1)/5`; otherwise there is none |
| `Pagination.WindowButtons` | src/pages/QueryGetPagination.tsx:164-172 | one button per index `i` of the selected window, pointing at and showing `i+1`; none without a window |
| `Pagination.NavigationLinks` | src/pages/QueryGetPagination.tsx:157-179 | the navigation row starts with "first" pointing at page 1, ends with "last" pointing at page `totalPage`, and holds the selected window's buttons in order between them |
| `Pagination.CurrentPageShown` | src/pages/QueryGetPagination.tsx:47-60 | for `1 <= p <= totalPage` the selected window exists, contains index `p-1`, and the row holds the button for page `p` |
| `Pagination.ButtonsInRange` | src/pages/QueryGetPagination.tsx:164-172 | every window button points at a page between 1 and `totalPage` |
| `Pagination.LinksLandOnExistingPages` | src/pages/QueryGetPagination.tsx:157-179 | with posts, every link resolves to a page between 1 and `totalPage`; with none, the row is just "first" and "last" (to 0) and every link resolves to page 1 |
| `Pagination.ThirtyOnePosts` | src/pages/QueryGetPagination.tsx:55-60 | 31 posts give seven pages in windows `[0..4]` and `[5,6]`; page 5 selects the first window and page 6 the second |
| `Pagination.SortNewestFirst` | src/pages/QueryGetPagination.tsx:73 | the fetched page is reordered in place into non-increasing id order and is a permutation of what was fetched |

## Left out

- Rendering, styles, the loading placeholder, `useMemo`/`useEffect` and the `console.log` calls (src/pages/QueryGetPagination.tsx:24,48,63,77): user interface and debug output, not logic.
- Fetching through react-query and axios (`/boards`, `/boards/page/?pageNumber=N`) and the blanket `invalidateQueries` on mount: asynchronous network I/O and library cache behaviour. The fetched values are parameters of the model.
- The sibling pages (post detail and edit, post creation, the plain list, home, routing and providers) and the date/uuid helpers: form state, HTTP mutations and foreign library calls.
- Pagination.ResolvePageNumber: JavaScript's string-to-number coercion is taken as already done (`Coerced`); fractional values, `Infinity` and the exact parsing rules are not modelled, since page numbers in links are always integers.
- PageArray.TotalPages: `Math.ceil` on a floating-point quotient is modelled by integer division, which agrees for every list length.
- Pagination.SortNewestFirst: the order of rows with equal ids (JavaScript's sort is stable) is not stated, because ids are unique on the server; the model sorts by insertion, the engine's algorithm is not modelled.
- Link targets are modelled as the page number in `/react-query/get-pagination?pageNumber=N`, not as the URL string.
