# Home page controller and tile helpers

This project models the home page of a small browser front-end for a
streaming catalog and proves properties about it. The page reads a catalog
document and builds one content row per container. It lets the user move a
cursor over the tiles with the arrow keys and open a detail modal with
Enter. Some rows are only references (`refId`), and their tiles are fetched
when the row scrolls into view.

The model is in three modules:

- `JsonModel` (`json_model.dfy`) models parsed JSON values. Objects are
  ordered lists of members, so the first key reported by `Object.keys` is
  the head of the list. The module also models the JavaScript operations
  the page applies to JSON: truthiness, the optional-chaining steps
  `v?.key` and `v?.[0]`, `v[Object.keys(v)[0]]` and `v || d`. `Follow` is
  the reference reading of a whole optional chain.
- `HomePageUtil` (`home_page_util.dfy`) models the pure helpers:
  - the three fallback-chain extractors (video url, image url, title);
  - `getMappedTiles`;
  - what happens when an `x || []` value is used as a row of tiles;
  - the video-or-image choice of `buildDetailModal`.
- `Components` (`home_page.dfy`) models the controller.
  - First, each step is a function on values with its laws: the build
    loop, the key guards, the highlight and its `scrollX` arithmetic, the
    scroll tick and the arrival of a row's details.
  - Then the class `HomePage` holds the source's fields (`content`, the
    four cursor fields) and what the listeners leave behind: whether each
    listener is attached, the modal, and a log of issued fetches. Its
    methods update these fields in place.
  - Each method is proved against the value-level functions and keeps the
    class invariant `Valid()`.

The DOM is reduced to one number per row: `childCount`, the number of tile
elements in the row. This count is kept apart from `tiles` (the mapped tiles
the modal reads) because the source lets the two diverge. A row that has
inline items and a `refId` gets its fetched tiles appended to the DOM row,
but its `tiles` replaced. `highlightTile` indexes the DOM children, while
ArrowRight and Enter index `tiles`.

The asynchronous parts are modelled as atomic steps of one event sequence:
- `OnScroll(inView)` is one scroll event. The set `inView` replaces the
  viewport geometry.
- `DetailsArrived(i, details)` is the continuation of the fetch for row `i`.
  The payload is arbitrary, and `None` stands for the null a failed fetch
  yields.
- `OnHighlightTimer` is the delayed first highlight.
- `OnKeyDown(code, outerWidth)` is one key press. The window width is a
  parameter.

The image-format key and the placeholder image path are application
constants. They appear as the fields `imageTileFormat` and `noImagePath`,
and as parameters of the helpers.

Where the code and its comments disagree, the model follows the code:
- `buildContentTitle` is documented as falling back to a default title.
  Its fallback names a constant that is not imported, so a container
  without a title throws. The model treats such a container as one whose
  handling throws, and the build loop stops there.
- The extractors are documented as returning a string. They return `''` or
  whatever truthy value ends the chain, which may be a number or an object.
  `VideoUrl`, `ImageUrl` and `TitleText` state exactly that.

## Model

| member | source | states |
|---|---|---|
| JsonModel.FirstValue | src/util/HomePageUtil.js:131-132 | on an object, the value under the first key; absent exactly when the object has no keys |
| JsonModel.Or | src/util/HomePageUtil.js:130 | `v` or-else `d` yields `v` exactly when `v` is present and truthy, else `d` |
| JsonModel.OrEmpty | src/util/HomePageUtil.js:141 | `v` or-else `''` yields `v` when it is present and truthy, and `''` otherwise |
| JsonModel.FollowNest | src/util/HomePageUtil.js:141 | following a chain through a value nested along it reaches the leaf, so every chain the page reads can end in any value |
| HomePageUtil.VideoUrl | src/util/HomePageUtil.js:140-142 | the video url is `''` or truthy, never another falsy value |
| HomePageUtil.ImageUrl | src/util/HomePageUtil.js:129-133 | the image url is `''` or truthy |
| HomePageUtil.TitleText | src/util/HomePageUtil.js:149-153 | the title is `''` or truthy |
| HomePageUtil.VideoUrlFollowsPath | src/util/HomePageUtil.js:140-142 | the video url is the chain `videoArt[0].mediaMetadata.urls[0].url` followed as far as it exists, or `''` |
| HomePageUtil.ImageUrlFollowsPath | src/util/HomePageUtil.js:129-133 | the image url is `default.url` of the first value of the bucket `image.tile[format]` (or `{}`), or `''` |
| HomePageUtil.TitleTextFollowsPath | src/util/HomePageUtil.js:149-153 | the title is `default.content` of the first value of `text.title.full` (or `{}`), or `''` |
| HomePageUtil.VideoUrlFound | src/util/HomePageUtil.js:140-142 | a tile holding a url at the end of the chain yields that url when truthy, `''` otherwise |
| HomePageUtil.VideoUrlMissing | src/util/HomePageUtil.js:140-142 | a tile object without `videoArt` yields `''` |
| HomePageUtil.ImageUrlFirstKeyOnly | src/util/HomePageUtil.js:129-133 | only the first entry of the image bucket is read; later entries never matter |
| HomePageUtil.ImageUrlNoBucket | src/util/HomePageUtil.js:129-133 | a missing or empty image bucket yields `''` |
| HomePageUtil.TitleTextFirstKeyOnly | src/util/HomePageUtil.js:149-153 | only the first entry of `text.title.full` is read |
| HomePageUtil.MappedTiles | src/util/HomePageUtil.js:116-122 | same length, same order, element i is the record of raw tile i |
| HomePageUtil.TileBatchOf | src/components/HomePage.js:96-101 | mapped tiles exist exactly for an array without nulls, with one DOM tile per item; a string still adds one DOM tile per character; anything else adds none |
| HomePageUtil.BuildDetailModal | src/util/HomePageUtil.js:69-85 | video exactly when `videoSrc` is truthy; else image of `imgSrc`, or the placeholder path when that is falsy; title is the tile's title |
| HomePageUtil.ModalOfMappedTile | src/util/HomePageUtil.js:69-85 | for a mapped catalog tile: video exactly when the video url is not `''`, image falls back to the placeholder exactly when the image url is `''` |
| Components.Characters | src/components/HomePage.js:39-45 | a string walked as containers yields its one-character strings in order |
| Components.ContainerList | src/components/HomePage.js:39-45 | the loop walks the elements of a `containers` array in order, the one-character strings of a string, and nothing when the chain is absent, falsy or another kind of value |
| Components.HasTitle | src/util/HomePageUtil.js:25 | the row title chain is present and truthy; only an object container with a `set` member can have one |
| Components.InlineItems | src/components/HomePage.js:46 | `set.items` when present and truthy, else `[]`; always truthy |
| Components.InitialRefId | src/components/HomePage.js:59 | `set.refId` when present and truthy, else `''` |
| Components.ContainerRow | src/components/HomePage.js:46-62 | a container yields a row exactly when it is non-null, has a truthy title and its items are an array without nulls; the row has refId `set.refId`, or `''` when that is falsy, as many tile elements as items, and the mapped items |
| Components.BuildRowsWithSpec | src/components/HomePage.js:45-63 | one row per container, in order, up to the first container that throws; the build completes exactly when no container throws |
| Components.BuildRowsSpec | src/components/HomePage.js:45-63 | the same law for the page's own container handling |
| Components.BuildRowsStops | src/components/HomePage.js:45-63 | once a container has thrown, later containers change nothing |
| Components.BuildRowsWithSnoc | src/components/HomePage.js:45-63 | the unfolding step the push loop's invariant uses: one more container appends its row, records a throw, or changes nothing after a stop |
| Components.RowOfKeepsTilesWithinElements | src/components/HomePage.js:53-61 | a built row never has more mapped tiles than tile elements |
| Components.TilesWithinElementsWith | src/components/HomePage.js:45-63 | every row of a build has at least as many tile elements as mapped tiles |
| Components.KeyOf | src/components/HomePage.js:123-183 | each of the six listed key codes maps to its own key, and only that code does; every other code is ignored |
| Components.Navigate | src/components/HomePage.js:124-159 | Left moves X down by one exactly when X > 0; Right moves X up by one exactly when X < tiles - 1; neither changes Y; Up and Down move Y by one and reset X only when Y changes; other keys do not move; the cursor stays on the grid |
| Components.CursorStaysInBounds | src/components/HomePage.js:124-159 | after any series of key presses the cursor is on a row and, on a non-empty row, on one of its tiles |
| Components.FloorDiv | src/components/HomePage.js:217 | `Math.floor(a / b)` for integers, for either sign of `b` |
| Components.ScrollX | src/components/HomePage.js:214-218 | with a positive page, `scrollX` is a non-negative multiple of the page with `scrollX <= tileX < scrollX + page`; with a negative page, a multiple with `tileX <= scrollX < tileX - page`; a zero page gives no number |
| Components.HighlightedLast | src/components/HomePage.js:212-229 | the last position becomes the cursor exactly when the row has a tile element there, else it is unchanged |
| Components.HighlightIdempotent | src/components/HomePage.js:207-229 | highlighting twice without a cursor change is highlighting once |
| Components.HighlightScroll | src/components/HomePage.js:212-224 | the row is scrolled exactly when it has a tile element at the cursor, to `scrollX` |
| Components.CursorTileHasElement | src/components/HomePage.js:212 | a cursor on a mapped tile always finds a tile element |
| Components.TileAt | src/components/HomePage.js:163-164 | Enter finds a tile exactly when `tiles[X]` exists |
| Components.TickRows | src/components/HomePage.js:86-106 | a tick clears the refId of exactly the pending rows in view and leaves every other row as it was |
| Components.TickFetchesExactly | src/components/HomePage.js:86-106 | a tick fetches exactly the pending rows in view, each once, in row order |
| Components.PendingBeforeZero | src/components/HomePage.js:86-89 | `refIdCount` is zero exactly when none of the scanned rows is pending |
| Components.DetachTiming | src/components/HomePage.js:86-113 | the listener detaches on a tick exactly when no row was pending at its start; the next tick detaches exactly when every pending row was in view |
| Components.TickClaimsOnce | src/components/HomePage.js:86-106 | a row that is not pending is never fetched, and a row fetched by one tick is not fetched by the next |
| Components.TickKeepsFetchLog | src/components/HomePage.js:86-106 | a tick keeps the fetch log free of repeats, and every logged row stays not pending |
| Components.Tick | src/components/HomePage.js:85-113 | one scroll event: a detached listener changes nothing; the fetch log only grows; a detached listener is never re-attached |
| Components.RunTicks | src/components/HomePage.js:85-113 | the same over a series of scroll events |
| Components.FetchedAtMostOnce | src/components/HomePage.js:86-113 | over any series of ticks each row is fetched at most once, only if it was pending at the start, and a pending row was pending at the start |
| Components.DetailItems | src/components/HomePage.js:93-95 | the items are `[]` when `data` is absent or falsy; for an object `data`, they are `items` of its first member's value when that is truthy, else `[]`; always truthy |
| Components.ArrivedRow | src/components/HomePage.js:92-102 | arrival keeps the refId, adds the new tile elements to the count, and replaces the mapped tiles unless mapping throws |
| Components.ArrivalOfNothing | src/components/HomePage.js:93-95 | a failed fetch, or any payload whose `data` is absent or falsy, empties the row's tiles and adds no element |
| Components.ArrivalOnInlineRow | src/components/HomePage.js:99-101 | a row with inline tiles ends with old plus new tile elements but only the new mapped tiles |
| Components.ArrivalLeavesCursorUnclamped | src/components/HomePage.js:92-102 | after an empty arrival, a cursor on a former tile names no mapped tile, but highlightTile still finds an element there |
| Components.HomePage.constructor | src/components/HomePage.js:17-24 | empty content, cursor and last position at the origin |
| Components.HomePage.BuildHomePage | src/components/HomePage.js:38-77 | content is the built rows; listeners and the first highlight are installed exactly when the build completed over at least one container; the cursor is untouched |
| Components.HomePage.BuildContainers | src/components/HomePage.js:41-76 | the same, once the container list is known |
| Components.HomePage.BuildRowsOf | src/components/HomePage.js:45-75 | the push loop produces the rows of the build, stopping at the first container that throws |
| Components.HomePage.OnScroll | src/components/HomePage.js:85-113 | a detached listener does nothing; otherwise the rows become the ticked rows, the claimed rows' fetches are appended to the log, and the listener stays exactly when some row was pending at the start |
| Components.HomePage.DetailsArrived | src/components/HomePage.js:92-102 | only row i changes, to the arrived row; the cursor is not touched |
| Components.HomePage.HighlightTile | src/components/HomePage.js:207-230 | commits the last position and scrolls as `HighlightedLast` and `HighlightScroll` say |
| Components.HomePage.OnHighlightTimer | src/components/HomePage.js:73-75 | the delayed first highlight runs once |
| Components.HomePage.OnArrowLeft | src/components/HomePage.js:124-131 | cursor moves as `Navigate` with ArrowLeft, then highlight |
| Components.HomePage.OnArrowRight | src/components/HomePage.js:132-139 | cursor moves as `Navigate` with ArrowRight, then highlight |
| Components.HomePage.OnArrowUp | src/components/HomePage.js:140-149 | cursor moves as `Navigate` with ArrowUp, then highlight |
| Components.HomePage.OnArrowDown | src/components/HomePage.js:150-159 | cursor moves as `Navigate` with ArrowDown, then highlight |
| Components.HomePage.OnEnter | src/components/HomePage.js:160-170 | opens the modal on the tile under the cursor exactly when there is one |
| Components.HomePage.OnBackspace | src/components/HomePage.js:171-180 | puts the empty placeholder back |
| Components.HomePage.OnKeyDown | src/components/HomePage.js:122-184 | dispatch on the key code; content never changes; an arrow key moves the cursor as `Navigate` says and then commits and scrolls as `HighlightedLast` and `HighlightScroll` say; Enter opens the modal on the tile under the cursor when there is one; Backspace closes it; other codes, and keys before the listener exists, change nothing |

## Left out

- Network I/O (the catalog and detail fetches and their error-to-null conversion) is left out. A fetch is an entry in `fetchLog`, and its outcome is the arbitrary payload of `DetailsArrived`.
- The endpoint URL construction (`getRefIdEndpoint`) is plain string concatenation. The retriever module is not part of this model.
- Viewport geometry (`getBoundingClientRect`, `innerHeight`) is replaced by the set `inView` given to each scroll tick.
- DOM construction is reduced to the per-row tile-element count. This covers the row containers, titles, tile images and their `onerror` swap, the modal's node tree beyond the media choice and title, `classList` and `replaceWith`. The key handler's `e.preventDefault()` calls are left out too.
- Strings are sequences of Unicode scalar values, while JavaScript's `length` and `s[i]` count UTF-16 code units. For text with characters outside the Basic Multilingual Plane, the lengths differ. For example, a detail payload whose `items` is a one-character string holding U+1F600 appends two tile elements in the page, but `TileBatchOf` counts one.
- `handleVerticalScrolling` and all smooth scrolling are left out. `HighlightScroll` only names the row and the horizontal offset it is scrolled to.
- The one-second timer is not timed. The first highlight is an event `OnHighlightTimer` that may run once after a completed build.
- Promise scheduling is modelled as atomic steps in one event sequence. Each fetch continuation runs at most once, and only for a fetch that was issued.
- Numbers are integers. `JNum` holds an integer, and `outerWidth` is an integer. `FloorDiv` gives `Math.floor` on integers, and a zero page width stands for the non-finite result.
- `Object.keys` lists integer-like keys first, in ascending order. The model takes the members in document order.
- JSON objects are taken with distinct keys, as `JSON.parse` yields them. On a repeated key, `Lookup` reads the first member, where the parsed object would hold the last.
- Named properties of arrays and strings, such as `length`, are not looked up by the modelled chains. A container list or items value that is an object with a `length` member is treated as having no length.
- Components.HomePage.OnEnter: assumes the page holds the `detail-modal` placeholder, which `index.html` provides and every modal swap keeps. The case where it is missing is not modelled.
- Components.HomePage.BuildHomePage: requires that the page has not been built yet. `init` calls it once.
- The application constants (`IMAGE_TILE_FORMAT`, `NO_IMAGE_PATH`) are parameters. `src/const/Constants.js` is not part of this model.
