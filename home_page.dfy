/**
 * The page controller: the rows built from the catalog, the keyboard
 * cursor, the highlight, the scroll-driven lazy loading of `refId` rows and
 * the arrival of their details.
 *
 * The first part gives each step as a function on values, with the laws the
 * page relies on; the class `HomePage` at the end holds the controller's
 * fields and updates them in place, each method proved against those
 * functions. The DOM is abstracted to one number per row: how many tile
 * elements the row holds.
 */
module Components {
  import opened JsonModel
  import opened HomePageUtil

  /** Client-side state of one content row: the `refId` still to be
      fetched (falsy once claimed), the mapped tiles the modal reads, and how
      many tile elements its DOM row holds. The last two are kept apart on
      purpose: they can differ. */
  datatype Row = Row(refId: Json, tiles: seq<MappedTile>, childCount: nat)

  /** A row whose details are still to be fetched: `if (content[i].refId)`. */
  predicate Pending(row: Row) {
    Truthy(row.refId)
  }

  predicate NoDuplicates(s: seq<int>) {
    forall j, k :: 0 <= j < k < |s| ==> s[j] != s[k]
  }

  /* ---------------------------------------------------------------------
     Building the rows from the catalog
     --------------------------------------------------------------------- */

  const ContainersPath: seq<Step> := [Field("data"), Field("StandardCollection"), Field("containers")]

  /** What the loop walks over: `containers[i]` for `i < containers.length`
      where `containers` is `data?.data?.StandardCollection?.containers || []`.
      A string is walked character by character; other non-arrays have no
      length and are not walked. */
  function ContainerList(data: Option<Json>): (cs: seq<Json>)
    ensures var c := Follow(data, ContainersPath);
      && (c.Some? && c.value.JArr? ==> cs == c.value.items)
      && (c.Some? && c.value.JStr? ==>
            |cs| == |c.value.s| && forall i :: 0 <= i < |cs| ==> cs[i] == JStr([c.value.s[i]]))
      && (c.None? || !(c.value.JArr? || c.value.JStr?) ==> cs == [])
  {
    match Or(Follow(data, ContainersPath), JArr([]))
    case JArr(xs) => xs
    case JStr(s) => Characters(s)
    case _ => []
  }

  /** The one-character strings `s[0]`, `s[1]`, ... */
  function Characters(s: string): (r: seq<Json>)
    ensures |r| == |s|
    ensures forall i :: 0 <= i < |s| ==> r[i] == JStr([s[i]])
  {
    if s == [] then [] else [JStr([s[0]])] + Characters(s[1..])
  }

  const RowTitlePath: seq<Step> :=
    [Field("set"), Field("text"), Field("title"), Field("full"), Field("set"), Field("default"), Field("content")]

  /** The row title `container.set?.text?....?.content`. When it is falsy,
      buildContentTitle evaluates a default-title name that is not in scope,
      which throws. */
  predicate HasTitle(c: Json)
    ensures HasTitle(c) ==> c.JObj? && Member(Some(c), "set").Some?
  {
    var t := Follow(Some(c), RowTitlePath);
    t.Some? && Truthy(t.value)
  }

  /** `containers[i].set?.items || []`. */
  function InlineItems(c: Json): (r: Json)
    ensures Truthy(r)
    ensures var v := Follow(Some(c), [Field("set"), Field("items")]);
      (if v.Some? && Truthy(v.value) then r == v.value else r == JArr([]))
  {
    Or(Follow(Some(c), [Field("set"), Field("items")]), JArr([]))
  }

  /** `containers[i].set?.refId || ''`. */
  function InitialRefId(c: Json): (r: Json)
    ensures var v := Follow(Some(c), [Field("set"), Field("refId")]);
      (if v.Some? && Truthy(v.value) then r == v.value else r == JStr(""))
  {
    Or(Follow(Some(c), [Field("set"), Field("refId")]), JStr(""))
  }

  /** The row pushed for one container, or None when handling the container
      throws: a null container (`containers[i].set`), a missing title, or
      inline items that are not an array of non-null tiles. */
  function ContainerRow(c: Json, format: string): (r: Option<Row>)
    ensures r.Some? <==>
      c != JNull && HasTitle(c) && InlineItems(c).JArr? && NoNull(InlineItems(c).items)
    ensures r.Some? ==>
      && r.value.refId == InitialRefId(c)
      && r.value.childCount == |r.value.tiles| == |InlineItems(c).items|
      && r.value.tiles == MappedTiles(InlineItems(c).items, format)
  {
    if c == JNull || !HasTitle(c) then None
    else
      var batch := TileBatchOf(InlineItems(c), format);
      match batch.mapped
      case None => None
      case Some(tiles) => Some(Row(InitialRefId(c), tiles, batch.domTiles))
  }

  /** The rows buildHomePage has pushed, and whether its loop ran to the
      end (it stops at the first container that throws). */
  datatype Built = Built(rows: seq<Row>, completed: bool)

  /** How buildHomePage handles one container, as a function value. */
  function RowOf(format: string): Json -> Option<Row> {
    c => ContainerRow(c, format)
  }

  /** The build loop over containers `cs`, given the row each container
      yields (None: handling it throws). */
  function BuildRowsWith(cs: seq<Json>, rowOf: Json -> Option<Row>): Built
    decreases |cs|
  {
    if cs == [] then Built([], true)
    else
      var prev := BuildRowsWith(cs[..|cs| - 1], rowOf);
      if !prev.completed then prev
      else match rowOf(cs[|cs| - 1])
        case None => Built(prev.rows, false)
        case Some(row) => Built(prev.rows + [row], true)
  }

  function BuildRows(cs: seq<Json>, format: string): Built {
    BuildRowsWith(cs, RowOf(format))
  }

  /** One row per container, in order, up to the first container that
      throws; the build completes exactly when no container throws. */
  lemma {:induction false} BuildRowsWithSpec(cs: seq<Json>, rowOf: Json -> Option<Row>)
    ensures var b := BuildRowsWith(cs, rowOf);
      && |b.rows| <= |cs|
      && (b.completed <==> forall k :: 0 <= k < |cs| ==> rowOf(cs[k]).Some?)
      && (b.completed ==> |b.rows| == |cs|)
      && (!b.completed ==> |b.rows| < |cs| && rowOf(cs[|b.rows|]).None?)
      && (forall k :: 0 <= k < |b.rows| ==> rowOf(cs[k]) == Some(b.rows[k]))
    decreases |cs|
  {
    if cs != [] {
      var init := cs[..|cs| - 1];
      BuildRowsWithSpec(init, rowOf);
      assert forall k :: 0 <= k < |init| ==> init[k] == cs[k];
    }
  }

  lemma BuildRowsSpec(cs: seq<Json>, format: string)
    ensures var b := BuildRows(cs, format);
      && (b.completed <==> forall k :: 0 <= k < |cs| ==> ContainerRow(cs[k], format).Some?)
      && (b.completed ==> |b.rows| == |cs|)
      && (!b.completed ==> |b.rows| < |cs| && ContainerRow(cs[|b.rows|], format).None?)
      && (forall k :: 0 <= k < |b.rows| ==> ContainerRow(cs[k], format) == Some(b.rows[k]))
  {
    BuildRowsWithSpec(cs, RowOf(format));
  }

  /** A row handler that never yields more mapped tiles than tile elements. */
  ghost predicate KeepsTilesWithinElements(rowOf: Json -> Option<Row>) {
    forall c :: rowOf(c).Some? ==> |rowOf(c).value.tiles| <= rowOf(c).value.childCount
  }

  lemma RowOfKeepsTilesWithinElements(format: string)
    ensures KeepsTilesWithinElements(RowOf(format))
  {
  }

  /** Every built row has as many tile elements as mapped tiles. */
  lemma {:induction false} TilesWithinElementsWith(cs: seq<Json>, rowOf: Json -> Option<Row>)
    requires KeepsTilesWithinElements(rowOf)
    ensures TilesWithinElements(BuildRowsWith(cs, rowOf).rows)
    decreases |cs|
  {
    if cs != [] {
      TilesWithinElementsWith(cs[..|cs| - 1], rowOf);
    }
  }

  /** Building a prefix one container longer. */
  lemma BuildRowsWithSnoc(cs: seq<Json>, i: nat, rowOf: Json -> Option<Row>)
    requires i < |cs|
    ensures var prev := BuildRowsWith(cs[..i], rowOf);
      BuildRowsWith(cs[..i + 1], rowOf) ==
        if !prev.completed then prev
        else match rowOf(cs[i])
          case None => Built(prev.rows, false)
          case Some(row) => Built(prev.rows + [row], true)
  {
    assert cs[..i + 1][..i] == cs[..i];
  }

  /** Once a container has thrown, later containers change nothing. */
  lemma {:induction false} BuildRowsStops(cs: seq<Json>, n: nat, rowOf: Json -> Option<Row>)
    requires n <= |cs|
    requires !BuildRowsWith(cs[..n], rowOf).completed
    ensures BuildRowsWith(cs, rowOf) == BuildRowsWith(cs[..n], rowOf)
    decreases |cs| - n
  {
    if n < |cs| {
      assert cs[..n + 1][..n] == cs[..n];
      BuildRowsStops(cs, n + 1, rowOf);
    } else {
      assert cs[..n] == cs;
    }
  }

  /* ---------------------------------------------------------------------
     The keyboard cursor
     --------------------------------------------------------------------- */

  /** The key codes the listener distinguishes; every other code is ignored. */
  datatype Key = ArrowLeft | ArrowRight | ArrowUp | ArrowDown | Enter | Backspace | Unhandled

  function KeyOf(code: string): (k: Key)
    ensures k == ArrowLeft <==> code == "ArrowLeft"
    ensures k == ArrowRight <==> code == "ArrowRight"
    ensures k == ArrowUp <==> code == "ArrowUp"
    ensures k == ArrowDown <==> code == "ArrowDown"
    ensures k == Enter <==> code == "Enter"
    ensures k == Backspace <==> code == "Backspace"
    ensures k == Unhandled <==>
      code !in {"ArrowLeft", "ArrowRight", "ArrowUp", "ArrowDown", "Enter", "Backspace"}
  {
    if code == "ArrowLeft" then ArrowLeft
    else if code == "ArrowRight" then ArrowRight
    else if code == "ArrowUp" then ArrowUp
    else if code == "ArrowDown" then ArrowDown
    else if code == "Enter" then Enter
    else if code == "Backspace" then Backspace
    else Unhandled
  }

  /** A tile position: `x` within the row, `y` the row. */
  datatype Cursor = Cursor(x: int, y: int)

  /** The cursor names an existing row and a non-negative column. */
  predicate OnGrid(rows: seq<Row>, c: Cursor) {
    0 <= c.y < |rows| && 0 <= c.x
  }

  /** The column is a tile of the row, or the row start. */
  predicate InRow(rows: seq<Row>, c: Cursor)
    requires OnGrid(rows, c)
  {
    c.x == 0 || c.x < |rows[c.y].tiles|
  }

  /** The cursor move of one key press (the guards of the key listener). */
  function Navigate(rows: seq<Row>, c: Cursor, key: Key): (r: Cursor)
    requires OnGrid(rows, c)
    ensures OnGrid(rows, r)
    ensures InRow(rows, c) ==> InRow(rows, r)
    ensures key == ArrowLeft ==>
      r.y == c.y && 0 <= c.x - r.x <= 1 && (r.x < c.x <==> c.x > 0)
    ensures key == ArrowRight ==>
      r.y == c.y && 0 <= r.x - c.x <= 1 && (r.x > c.x <==> c.x < |rows[c.y].tiles| - 1)
    ensures key == ArrowUp ==>
      if c.y > 0 then r == Cursor(0, c.y - 1) else r == c
    ensures key == ArrowDown ==>
      if c.y < |rows| - 1 then r == Cursor(0, c.y + 1) else r == c
    ensures key !in {ArrowLeft, ArrowRight, ArrowUp, ArrowDown} ==> r == c
  {
    match key
    case ArrowLeft => if c.x > 0 then c.(x := c.x - 1) else c
    case ArrowRight => if c.x < |rows[c.y].tiles| - 1 then c.(x := c.x + 1) else c
    case ArrowUp => if c.y > 0 then Cursor(0, c.y - 1) else c
    case ArrowDown => if c.y < |rows| - 1 then Cursor(0, c.y + 1) else c
    case _ => c
  }

  /** The cursor after a series of key presses on unchanging rows. */
  function NavigateAll(rows: seq<Row>, c: Cursor, keys: seq<Key>): Cursor
    requires OnGrid(rows, c)
    decreases |keys|
  {
    if keys == [] then c
    else
      var next := Navigate(rows, c, keys[0]);
      NavigateAll(rows, next, keys[1..])
  }

  /** After any series of key presses the cursor is on the grid and on a
      tile of its row (or at the row start, for an empty row). */
  lemma {:induction false} CursorStaysInBounds(rows: seq<Row>, c: Cursor, keys: seq<Key>)
    requires OnGrid(rows, c) && InRow(rows, c)
    ensures var r := NavigateAll(rows, c, keys);
      OnGrid(rows, r) && InRow(rows, r)
    decreases |keys|
  {
    if keys != [] {
      CursorStaysInBounds(rows, Navigate(rows, c, keys[0]), keys[1..]);
    }
  }

  /* ---------------------------------------------------------------------
     The highlight
     --------------------------------------------------------------------- */

  /** Width of a tile plus its right margin, in pixels. */
  const TileWidth: int := 194

  /** `Math.floor(a / b)` for integers. */
  function FloorDiv(a: int, b: int): (q: int)
    requires b != 0
    ensures b > 0 ==> q * b <= a < q * b + b
    ensures b < 0 ==> q * b + b < a <= q * b
  {
    if b > 0 then a / b else (-a) / (-b)
  }

  /** The horizontal offset highlightTile scrolls the row to:
      `Math.floor(tileX / page) * page` with `page = outerWidth - 194`. A
      zero page makes the quotient non-finite, shown as None. */
  function ScrollX(selectedX: int, outerWidth: int): (r: Option<int>)
    requires selectedX >= 0
    ensures r.None? <==> outerWidth == TileWidth
    ensures var page := outerWidth - TileWidth; var tileX := selectedX * TileWidth;
      page > 0 ==> r.Some? && r.value % page == 0 && 0 <= r.value <= tileX < r.value + page
    ensures var page := outerWidth - TileWidth; var tileX := selectedX * TileWidth;
      page < 0 ==> r.Some? && r.value % page == 0 && tileX <= r.value < tileX - page
  {
    var page := outerWidth - TileWidth;
    var tileX := selectedX * TileWidth;
    if page == 0 then None
    else
      var q := FloorDiv(tileX, page);
      MultipleMod(q, page);
      Some(q * page)
  }

  /** A multiple of a non-zero divisor leaves no remainder. */
  lemma MultipleMod(q: int, b: int)
    requires b != 0
    ensures (q * b) % b == 0
  {
    if b > 0 {
      PositiveMultipleMod(q, b);
    } else {
      PositiveMultipleMod(-q, -b);
      assert q * b == (-q) * (-b);
      assert (q * b) % b == (q * b) % (-b);
    }
  }

  lemma PositiveMultipleMod(q: int, b: int)
    requires b > 0
    ensures (q * b) % b == 0
  {
    var m := q * b;
    var k := m / b;
    assert (q - k) * b == m % b;
    MulBounds(q - k, b);
  }

  /** A non-zero multiple of a positive `b` is at least `b` away from zero. */
  lemma MulBounds(n: int, b: int)
    requires b > 0
    ensures n >= 1 ==> n * b >= b
    ensures n <= -1 ==> n * b <= -b
  {
  }

  /** The row has a tile element at the cursor: `rowRef?.children?.[x]`. */
  predicate HasTileElement(rows: seq<Row>, c: Cursor)
    requires 0 <= c.y < |rows|
  {
    0 <= c.x < rows[c.y].childCount
  }

  /** The position highlightTile commits as the last one. */
  function HighlightedLast(rows: seq<Row>, c: Cursor, last: Cursor): (r: Cursor)
    requires 0 <= c.y < |rows|
    ensures r == c || r == last
    ensures r == c <==> HasTileElement(rows, c) || last == c
  {
    if HasTileElement(rows, c) then c else last
  }

  /** Highlighting twice with no cursor change is highlighting once. */
  lemma HighlightIdempotent(rows: seq<Row>, c: Cursor, last: Cursor)
    requires 0 <= c.y < |rows|
    ensures HighlightedLast(rows, c, HighlightedLast(rows, c, last)) == HighlightedLast(rows, c, last)
  {
  }

  /** A scroll request for one row's tile strip. */
  datatype RowScroll = NoScroll | ScrollRow(row: int, left: Option<int>)

  function HighlightScroll(rows: seq<Row>, c: Cursor, outerWidth: int): (s: RowScroll)
    requires OnGrid(rows, c)
    ensures s.ScrollRow? <==> HasTileElement(rows, c)
    ensures s.ScrollRow? ==> s.row == c.y && s.left == ScrollX(c.x, outerWidth)
  {
    if HasTileElement(rows, c) then ScrollRow(c.y, ScrollX(c.x, outerWidth)) else NoScroll
  }

  /** A row never holds more mapped tiles than tile elements. */
  predicate TilesWithinElements(rows: seq<Row>) {
    forall i :: 0 <= i < |rows| ==> |rows[i].tiles| <= rows[i].childCount
  }

  /** So a cursor that arrow keys keep on a tile always finds its element. */
  lemma CursorTileHasElement(rows: seq<Row>, c: Cursor)
    requires TilesWithinElements(rows) && OnGrid(rows, c)
    requires c.x < |rows[c.y].tiles|
    ensures HasTileElement(rows, c)
  {
  }

  /** The mapped tile under the cursor: `content[y].tiles[x]`, if any. */
  function TileAt(rows: seq<Row>, c: Cursor): (t: Option<MappedTile>)
    requires 0 <= c.y < |rows|
    ensures t.Some? <==> 0 <= c.x < |rows[c.y].tiles|
    ensures t.Some? ==> t.value == rows[c.y].tiles[c.x]
  {
    if 0 <= c.x < |rows[c.y].tiles| then Some(rows[c.y].tiles[c.x]) else None
  }

  /* ---------------------------------------------------------------------
     The scroll tick and the arrival of details
     --------------------------------------------------------------------- */

  /** A tick claims row i when it is pending and in view. */
  predicate Claimed(rows: seq<Row>, inView: set<int>, i: int)
    requires 0 <= i < |rows|
  {
    Pending(rows[i]) && i in inView
  }

  /** Row i after a tick: a claimed row has its refId cleared. */
  function TickRow(rows: seq<Row>, inView: set<int>, i: int): Row
    requires 0 <= i < |rows|
  {
    if Claimed(rows, inView, i) then rows[i].(refId := JStr("")) else rows[i]
  }

  /** All rows after a tick. */
  function TickRows(rows: seq<Row>, inView: set<int>): (r: seq<Row>)
    ensures |r| == |rows|
    ensures forall i :: 0 <= i < |rows| ==> r[i] == TickRow(rows, inView, i)
  {
    seq(|rows|, i requires 0 <= i < |rows| => TickRow(rows, inView, i))
  }

  /** The fetches a tick issues while scanning rows 0 .. n-1, in order. */
  function TickFetches(rows: seq<Row>, inView: set<int>, n: nat): seq<int>
    requires n <= |rows|
  {
    if n == 0 then []
    else TickFetches(rows, inView, n - 1) + (if Claimed(rows, inView, n - 1) then [n - 1] else [])
  }

  /** `refIdCount` after scanning rows 0 .. n-1. */
  function PendingBefore(rows: seq<Row>, n: nat): nat
    requires n <= |rows|
  {
    if n == 0 then 0
    else PendingBefore(rows, n - 1) + (if Pending(rows[n - 1]) then 1 else 0)
  }

  /** A tick fetches exactly the claimed rows, each once, in row order. */
  lemma {:induction false} TickFetchesExactly(rows: seq<Row>, inView: set<int>, n: nat)
    requires n <= |rows|
    ensures forall k :: k in TickFetches(rows, inView, n) <==> 0 <= k < n && Claimed(rows, inView, k)
    ensures forall j, k :: 0 <= j < k < |TickFetches(rows, inView, n)| ==>
      TickFetches(rows, inView, n)[j] < TickFetches(rows, inView, n)[k]
  {
    if n > 0 {
      TickFetchesExactly(rows, inView, n - 1);
      var prev := TickFetches(rows, inView, n - 1);
      assert forall j :: 0 <= j < |prev| ==> prev[j] in prev;
    }
  }

  /** `refIdCount` is zero exactly when none of the scanned rows is pending. */
  lemma {:induction false} PendingBeforeZero(rows: seq<Row>, n: nat)
    requires n <= |rows|
    ensures PendingBefore(rows, n) == 0 <==> forall k :: 0 <= k < n ==> !Pending(rows[k])
  {
    if n > 0 {
      PendingBeforeZero(rows, n - 1);
    }
  }

  /** The listener detaches on a tick exactly when no row was pending when
      the tick started; in particular not on the tick that claims the last
      pending row. The next tick detaches exactly when every pending row
      was in view. */
  lemma DetachTiming(rows: seq<Row>, inView: set<int>)
    ensures PendingBefore(rows, |rows|) == 0 <==> forall k :: 0 <= k < |rows| ==> !Pending(rows[k])
    ensures PendingBefore(TickRows(rows, inView), |rows|) == 0 <==>
      forall k :: 0 <= k < |rows| && Pending(rows[k]) ==> k in inView
  {
    PendingBeforeZero(rows, |rows|);
    var after := TickRows(rows, inView);
    PendingBeforeZero(after, |rows|);
    forall k | 0 <= k < |rows|
      ensures !Pending(after[k]) <==> (Pending(rows[k]) ==> k in inView)
    {
      assert after[k] == TickRow(rows, inView, k);
    }
  }

  /** A row fetched by one tick is not fetched by any later tick, and a row
      that is not pending is never fetched. */
  lemma TickClaimsOnce(rows: seq<Row>, inView: set<int>, laterView: set<int>)
    ensures forall k :: 0 <= k < |rows| && !Pending(rows[k]) ==> k !in TickFetches(rows, inView, |rows|)
    ensures forall k :: k in TickFetches(rows, inView, |rows|) ==>
      k !in TickFetches(TickRows(rows, inView), laterView, |rows|)
  {
    TickFetchesExactly(rows, inView, |rows|);
    TickFetchesExactly(TickRows(rows, inView), laterView, |rows|);
  }

  /** Every pending row is one of `initial`. */
  predicate PendingWithin(rows: seq<Row>, initial: set<int>) {
    forall i :: 0 <= i < |rows| && Pending(rows[i]) ==> i in initial
  }

  /** A fetch log names each row at most once, and only rows of `initial`
      that are no longer pending. */
  predicate FetchLogOf(rows: seq<Row>, log: seq<int>, initial: set<int>) {
    && NoDuplicates(log)
    && forall j :: 0 <= j < |log| ==>
         0 <= log[j] < |rows| && log[j] in initial && !Pending(rows[log[j]])
  }

  /** A tick keeps both: what it fetches was pending, and is pending no
      more. */
  lemma TickKeepsFetchLog(rows: seq<Row>, log: seq<int>, inView: set<int>, initial: set<int>)
    requires PendingWithin(rows, initial) && FetchLogOf(rows, log, initial)
    ensures PendingWithin(TickRows(rows, inView), initial)
    ensures FetchLogOf(TickRows(rows, inView), log + TickFetches(rows, inView, |rows|), initial)
  {
    var after := TickRows(rows, inView);
    var f := TickFetches(rows, inView, |rows|);
    var log' := log + f;
    TickFetchesExactly(rows, inView, |rows|);
    forall j | 0 <= j < |log'|
      ensures 0 <= log'[j] < |after| && log'[j] in initial && !Pending(after[log'[j]])
    {
      if j >= |log| {
        assert log'[j] == f[j - |log|];
        assert f[j - |log|] in f;
      }
    }
    forall j, k | 0 <= j < k < |log'|
      ensures log'[j] != log'[k]
    {
      if j >= |log| {
        assert log'[j] == f[j - |log|] && log'[k] == f[k - |log|];
      } else if k >= |log| {
        assert log'[k] == f[k - |log|];
        assert f[k - |log|] in f;
      }
    }
  }

  /** The outcome of a series of scroll ticks: the rows, every fetch issued,
      and whether the listener is still attached. */
  datatype Ticked = Ticked(rows: seq<Row>, fetched: seq<int>, listening: bool)

  /** One scroll event: a detached listener no longer runs. */
  function Tick(s: Ticked, inView: set<int>): (r: Ticked)
    ensures |r.rows| == |s.rows|
    ensures s.fetched <= r.fetched
    ensures r.listening ==> s.listening
    ensures !s.listening ==> r == s
  {
    if !s.listening then s
    else Ticked(TickRows(s.rows, inView),
                s.fetched + TickFetches(s.rows, inView, |s.rows|),
                PendingBefore(s.rows, |s.rows|) > 0)
  }

  function RunTicks(s: Ticked, views: seq<set<int>>): (r: Ticked)
    ensures |r.rows| == |s.rows|
    ensures s.fetched <= r.fetched
    ensures r.listening ==> s.listening
    ensures !s.listening ==> r == s
    decreases |views|
  {
    if views == [] then s
    else Tick(RunTicks(s, views[..|views| - 1]), views[|views| - 1])
  }

  /** At most one fetch per row over any series of ticks, and only for rows
      that were pending at the start. */
  lemma {:induction false} FetchedAtMostOnce(rows: seq<Row>, listening: bool, views: seq<set<int>>)
    ensures var r := RunTicks(Ticked(rows, [], listening), views);
      && NoDuplicates(r.fetched)
      && (forall j :: 0 <= j < |r.fetched| ==>
            0 <= r.fetched[j] < |rows| && Pending(rows[r.fetched[j]]) && !Pending(r.rows[r.fetched[j]]))
      && (forall k :: 0 <= k < |rows| && Pending(r.rows[k]) ==> Pending(rows[k]))
    decreases |views|
  {
    if views != [] {
      var views' := views[..|views| - 1];
      FetchedAtMostOnce(rows, listening, views');
      var s := RunTicks(Ticked(rows, [], listening), views');
      var v := views[|views| - 1];
      var r := Tick(s, v);
      assert RunTicks(Ticked(rows, [], listening), views) == r;
      if s.listening {
        var f := TickFetches(s.rows, v, |s.rows|);
        TickFetchesExactly(s.rows, v, |s.rows|);
        assert r.fetched == s.fetched + f;
        forall k | 0 <= k < |rows|
          ensures r.rows[k] == TickRow(s.rows, v, k)
        {
        }
        forall j, k | 0 <= j < k < |r.fetched|
          ensures r.fetched[j] != r.fetched[k]
        {
          if j >= |s.fetched| {
            assert r.fetched[j] == f[j - |s.fetched|] && r.fetched[k] == f[k - |s.fetched|];
          } else if k >= |s.fetched| {
            assert r.fetched[k] == f[k - |s.fetched|];
            assert f[k - |s.fetched|] in f;
          }
        }
        forall j | 0 <= j < |r.fetched|
          ensures 0 <= r.fetched[j] < |rows| && Pending(rows[r.fetched[j]]) && !Pending(r.rows[r.fetched[j]])
        {
          if j >= |s.fetched| {
            assert r.fetched[j] == f[j - |s.fetched|];
            assert f[j - |s.fetched|] in f;
          }
        }
      }
    }
  }

  /** The tile list a detail payload yields:
      `details?.data || {}`, its first key's value, then `?.items || []`. */
  function DetailItems(details: Option<Json>): (r: Json)
    ensures Truthy(r)
    ensures Member(details, "data").None? || !Truthy(Member(details, "data").value) ==> r == JArr([])
    ensures forall k, v, rest :: Member(details, "data") == Some(JObj([(k, v)] + rest)) ==>
      var items := Member(Some(v), "items");
      r == (if items.Some? && Truthy(items.value) then items.value else JArr([]))
  {
    var setLocation := Or(Member(details, "data"), JObj([]));
    Or(Member(FirstValue(setLocation), "items"), JArr([]))
  }

  /** Row i once its details arrive: the new tile elements are appended to
      the DOM row and the mapped tiles are replaced (both only as far as
      the source gets before any throw). The refId is left alone. */
  function ArrivedRow(row: Row, details: Option<Json>, format: string): (r: Row)
    ensures r.refId == row.refId
    ensures var b := TileBatchOf(DetailItems(details), format);
      && r.childCount == row.childCount + b.domTiles
      && r.tiles == (if b.mapped.Some? then b.mapped.value else row.tiles)
    ensures |row.tiles| <= row.childCount ==> |r.tiles| <= r.childCount
  {
    var b := TileBatchOf(DetailItems(details), format);
    Row(row.refId, if b.mapped.Some? then b.mapped.value else row.tiles, row.childCount + b.domTiles)
  }

  /** A failed fetch (null), or a payload whose `data` is absent or falsy,
      yields an empty tile list: the row's tiles become empty and no element
      is added. */
  lemma ArrivalOfNothing(row: Row, details: Option<Json>, format: string)
    requires Member(details, "data").None? || !Truthy(Member(details, "data").value)
    ensures ArrivedRow(row, details, format) == row.(tiles := [])
  {
  }

  /** A row with n inline tiles that also had a refId ends with n + m tile
      elements but only the m fetched tiles. */
  lemma ArrivalOnInlineRow(row: Row, items: seq<Json>, key: string, format: string)
    requires row.childCount == |row.tiles|
    requires NoNull(items)
    ensures var r := ArrivedRow(row, Some(JObj([("data", JObj([(key, JObj([("items", JArr(items))]))]))])), format);
      r.childCount == |row.tiles| + |items| && r.tiles == MappedTiles(items, format)
  {
  }

  /** Arrival does not clamp the cursor: when a row's fetched payload is
      empty, a cursor on one of its former tiles no longer names a mapped
      tile (Enter does nothing), yet the row still has a tile element there
      (highlightTile still commits it). */
  lemma ArrivalLeavesCursorUnclamped(rows: seq<Row>, c: Cursor, format: string)
    requires OnGrid(rows, c) && c.x < |rows[c.y].tiles| && TilesWithinElements(rows)
    ensures var after := rows[c.y := ArrivedRow(rows[c.y], None, format)];
      && TileAt(after, c).None?
      && HasTileElement(after, c)
      && HighlightedLast(after, c, Cursor(0, 0)) == c
  {
  }

  /* ---------------------------------------------------------------------
     The controller
     --------------------------------------------------------------------- */

  /** The detail modal: the empty placeholder, or open on a tile. */
  datatype ModalState = Closed | Open(modal: DetailModal)

  class HomePage {
    /** The image-format key and the placeholder image path, constants of
        the application. */
    const imageTileFormat: string
    const noImagePath: string

    var content: seq<Row>
    var selectedTileX: int
    var selectedTileY: int
    var lastTileX: int
    var lastTileY: int
    /** Whether the scroll listener and the key listener are installed. */
    var scrollListening: bool
    var keysListening: bool
    var modal: ModalState
    /** Rows whose details were requested, in request order. */
    var fetchLog: seq<int>

    /** buildHomePage has run; the one-second initial highlight is still
        due; the rows pending right after the build; fetches whose
        continuation has not run yet. */
    ghost var built: bool
    ghost var highlightDue: bool
    ghost var initiallyPending: set<int>
    ghost var inFlight: set<int>

    function Selected(): Cursor
      reads this
    {
      Cursor(selectedTileX, selectedTileY)
    }

    function Last(): Cursor
      reads this
    {
      Cursor(lastTileX, lastTileY)
    }

    /** The controller's invariant: the cursor is on a row whenever keys
        are handled (and at the origin before), the listeners are installed
        together after a build, every row has at least as many tile
        elements as mapped tiles, and each row is fetched at most once, only
        if it was pending after the build, and is not pending afterwards. */
    ghost predicate Valid()
      reads this
    {
      && 0 <= selectedTileX && 0 <= lastTileX
      && (keysListening ==> 0 <= selectedTileY < |content| && 0 <= lastTileY < |content|)
      && (!keysListening ==>
            selectedTileX == selectedTileY == lastTileX == lastTileY == 0 && modal == Closed)
      && (scrollListening ==> keysListening)
      && (highlightDue ==> keysListening)
      && (keysListening ==> built)
      && (!built ==> content == [] && fetchLog == [] && inFlight == {})
      && TilesWithinElements(content)
      && PendingWithin(content, initiallyPending)
      && FetchLogOf(content, fetchLog, initiallyPending)
      && (forall i :: i in inFlight ==> i in fetchLog)
    }

    constructor (imageTileFormat: string, noImagePath: string)
      ensures Valid() && !built
      ensures this.imageTileFormat == imageTileFormat && this.noImagePath == noImagePath
      ensures content == [] && Selected() == Cursor(0, 0) && Last() == Cursor(0, 0)
      ensures !scrollListening && !keysListening && modal == Closed && fetchLog == []
    {
      this.imageTileFormat := imageTileFormat;
      this.noImagePath := noImagePath;
      content := [];
      selectedTileX, selectedTileY, lastTileX, lastTileY := 0, 0, 0, 0;
      scrollListening, keysListening := false, false;
      modal := Closed;
      fetchLog := [];
      built, highlightDue := false, false;
      initiallyPending, inFlight := {}, {};
    }

    /** buildHomePage: one row per container until a container throws; the
        listeners (and the delayed first highlight) are installed only when
        every container was handled and there was at least one. */
    method BuildHomePage(data: Option<Json>)
      requires Valid() && !built
      modifies this`content, this`built, this`scrollListening, this`keysListening, this`highlightDue,
        this`initiallyPending
      ensures Valid() && built
      ensures var cs := ContainerList(data); var b := BuildRows(cs, imageTileFormat);
        && content == b.rows
        && keysListening == (b.completed && |cs| > 0)
        && scrollListening == keysListening && highlightDue == keysListening
      ensures Selected() == old(Selected()) && Last() == old(Last()) && modal == old(modal)
      ensures fetchLog == [] && inFlight == {}
      ensures initiallyPending == set i | 0 <= i < |content| && Pending(content[i])
    {
      var containers := ContainerList(data);
      BuildContainers(containers);
    }

    /** buildHomePage once the container list is known. */
    method BuildContainers(containers: seq<Json>)
      requires Valid() && !built
      modifies this`content, this`built, this`scrollListening, this`keysListening, this`highlightDue,
        this`initiallyPending
      ensures Valid() && built
      ensures var b := BuildRows(containers, imageTileFormat);
        && content == b.rows
        && keysListening == (b.completed && |containers| > 0)
        && scrollListening == keysListening && highlightDue == keysListening
      ensures initiallyPending == set i | 0 <= i < |content| && Pending(content[i])
    {
      RowOfKeepsTilesWithinElements(imageTileFormat);
      BuildRowsOf(containers, RowOf(imageTileFormat));
    }

    /** The loop of buildHomePage, given how one container is handled. */
    method BuildRowsOf(containers: seq<Json>, rowOf: Json -> Option<Row>)
      requires Valid() && !built && KeepsTilesWithinElements(rowOf)
      modifies this`content, this`built, this`scrollListening, this`keysListening, this`highlightDue,
        this`initiallyPending
      ensures Valid() && built
      ensures var b := BuildRowsWith(containers, rowOf);
        && content == b.rows
        && keysListening == (b.completed && |containers| > 0)
        && scrollListening == keysListening && highlightDue == keysListening
      ensures initiallyPending == set i | 0 <= i < |content| && Pending(content[i])
    {
      var rows: seq<Row> := [];
      var completed := true;
      var i := 0;
      while i < |containers|
        invariant 0 <= i <= |containers|
        invariant BuildRowsWith(containers[..i], rowOf) == Built(rows, true)
        invariant |rows| == i
        modifies {}
      {
        var row := rowOf(containers[i]);
        BuildRowsWithSnoc(containers, i, rowOf);
        if row.None? {
          BuildRowsStops(containers, i + 1, rowOf);
          completed := false;
          break;
        }
        rows := rows + [row.value];
        i := i + 1;
      }
      if completed {
        assert containers[..i] == containers;
      }
      TilesWithinElementsWith(containers, rowOf);
      built := true;
      content := rows;
      if completed && |containers| > 0 {
        scrollListening, keysListening, highlightDue := true, true, true;
      }
      initiallyPending := set i | 0 <= i < |content| && Pending(content[i]);
    }

    /** One scroll event: every pending row in view is claimed (its refId
        cleared) and its details requested; the listener detaches when no
        row was pending at the start of the tick. */
    method OnScroll(inView: set<int>)
      requires Valid()
      modifies this`content, this`fetchLog, this`scrollListening, this`inFlight
      ensures Valid()
      ensures !old(scrollListening) ==>
        content == old(content) && fetchLog == old(fetchLog) && !scrollListening && inFlight == old(inFlight)
      ensures old(scrollListening) ==>
        && content == TickRows(old(content), inView)
        && fetchLog == old(fetchLog) + TickFetches(old(content), inView, |old(content)|)
        && scrollListening == (PendingBefore(old(content), |old(content)|) > 0)
        && inFlight == old(inFlight) + (set k | k in TickFetches(old(content), inView, |old(content)|))
    {
      if !scrollListening {
        return;
      }
      ghost var rows := content;
      ghost var log := fetchLog;
      var refIdCount := 0;
      var i := 0;
      while i < |content|
        invariant 0 <= i <= |content| == |rows|
        invariant forall k :: 0 <= k < i ==> content[k] == TickRow(rows, inView, k)
        invariant forall k :: i <= k < |rows| ==> content[k] == rows[k]
        invariant fetchLog == log + TickFetches(rows, inView, i)
        invariant inFlight == old(inFlight) + (set k | k in TickFetches(rows, inView, i))
        invariant refIdCount == PendingBefore(rows, i)
        modifies this`content, this`fetchLog, this`inFlight
      {
        if Truthy(content[i].refId) {
          refIdCount := refIdCount + 1;
          if i in inView {
            fetchLog := fetchLog + [i];
            inFlight := inFlight + {i};
            content := content[i := content[i].(refId := JStr(""))];
          }
        }
        i := i + 1;
      }
      if refIdCount == 0 {
        scrollListening := false;
      }
      assert content == TickRows(rows, inView);
      TickKeepsFetchLog(rows, log, inView, initiallyPending);
    }

    /** The continuation of the fetch for row i: append the new tile
        elements, replace the row's mapped tiles. Nothing else changes; in
        particular the cursor is not re-checked against the new tiles. */
    method DetailsArrived(i: int, details: Option<Json>)
      requires Valid() && i in inFlight
      modifies this`content, this`inFlight
      ensures Valid()
      ensures 0 <= i < |content|
      ensures content == old(content)[i := ArrivedRow(old(content)[i], details, imageTileFormat)]
      ensures inFlight == old(inFlight) - {i}
    {
      var tiles := DetailItems(details);
      var batch := TileBatchOf(tiles, imageTileFormat);
      var row := content[i];
      row := row.(childCount := row.childCount + batch.domTiles);
      if batch.mapped.Some? {
        row := row.(tiles := batch.mapped.value);
      }
      content := content[i := row];
      inFlight := inFlight - {i};
    }

    /** highlightTile: when the row has a tile element at the cursor, scroll
        the row to it and commit the cursor as the last position. */
    method HighlightTile(outerWidth: int) returns (scroll: RowScroll)
      requires Valid() && keysListening
      modifies this`lastTileX, this`lastTileY
      ensures Valid()
      ensures Last() == HighlightedLast(content, Selected(), old(Last()))
      ensures scroll == HighlightScroll(content, Selected(), outerWidth)
    {
      if 0 <= selectedTileX < content[selectedTileY].childCount {
        var left := ScrollX(selectedTileX, outerWidth);
        scroll := ScrollRow(selectedTileY, left);
        lastTileX := selectedTileX;
        lastTileY := selectedTileY;
      } else {
        scroll := NoScroll;
      }
    }

    /** The one-second timer set by buildHomePage. */
    method OnHighlightTimer(outerWidth: int) returns (scroll: RowScroll)
      requires Valid() && highlightDue
      modifies this`lastTileX, this`lastTileY, this`highlightDue
      ensures Valid() && !highlightDue
      ensures Last() == HighlightedLast(content, Selected(), old(Last()))
      ensures scroll == HighlightScroll(content, Selected(), outerWidth)
    {
      scroll := HighlightTile(outerWidth);
      highlightDue := false;
    }

    method OnArrowLeft(outerWidth: int) returns (scroll: RowScroll)
      requires Valid() && keysListening
      modifies this`selectedTileX, this`lastTileX, this`lastTileY
      ensures Valid()
      ensures Selected() == Navigate(content, old(Selected()), ArrowLeft)
      ensures Last() == HighlightedLast(content, Selected(), old(Last()))
      ensures scroll == HighlightScroll(content, Selected(), outerWidth)
    {
      if selectedTileX > 0 {
        selectedTileX := selectedTileX - 1;
      }
      scroll := HighlightTile(outerWidth);
    }

    method OnArrowRight(outerWidth: int) returns (scroll: RowScroll)
      requires Valid() && keysListening
      modifies this`selectedTileX, this`lastTileX, this`lastTileY
      ensures Valid()
      ensures Selected() == Navigate(content, old(Selected()), ArrowRight)
      ensures Last() == HighlightedLast(content, Selected(), old(Last()))
      ensures scroll == HighlightScroll(content, Selected(), outerWidth)
    {
      if selectedTileX < |content[selectedTileY].tiles| - 1 {
        selectedTileX := selectedTileX + 1;
      }
      scroll := HighlightTile(outerWidth);
    }

    method OnArrowUp(outerWidth: int) returns (scroll: RowScroll)
      requires Valid() && keysListening
      modifies this`selectedTileX, this`selectedTileY, this`lastTileX, this`lastTileY
      ensures Valid()
      ensures Selected() == Navigate(content, old(Selected()), ArrowUp)
      ensures Last() == HighlightedLast(content, Selected(), old(Last()))
      ensures scroll == HighlightScroll(content, Selected(), outerWidth)
    {
      if selectedTileY > 0 {
        selectedTileY := selectedTileY - 1;
        selectedTileX := 0;
      }
      scroll := HighlightTile(outerWidth);
    }

    method OnArrowDown(outerWidth: int) returns (scroll: RowScroll)
      requires Valid() && keysListening
      modifies this`selectedTileX, this`selectedTileY, this`lastTileX, this`lastTileY
      ensures Valid()
      ensures Selected() == Navigate(content, old(Selected()), ArrowDown)
      ensures Last() == HighlightedLast(content, Selected(), old(Last()))
      ensures scroll == HighlightScroll(content, Selected(), outerWidth)
    {
      if selectedTileY < |content| - 1 {
        selectedTileY := selectedTileY + 1;
        selectedTileX := 0;
      }
      scroll := HighlightTile(outerWidth);
    }

    /** Enter opens the modal on the tile under the cursor, if there is one. */
    method OnEnter()
      requires Valid() && keysListening
      modifies this`modal
      ensures Valid()
      ensures var t := TileAt(content, Selected());
        modal == if t.Some? then Open(BuildDetailModal(t.value, noImagePath)) else old(modal)
    {
      if 0 <= selectedTileX < |content[selectedTileY].tiles| {
        var tile := content[selectedTileY].tiles[selectedTileX];
        modal := Open(BuildDetailModal(tile, noImagePath));
      }
    }

    /** Backspace puts the empty placeholder back. */
    method OnBackspace()
      requires Valid() && keysListening
      modifies this`modal
      ensures Valid() && modal == Closed
    {
      modal := Closed;
    }

    /** The key listener: dispatch on the key code; other codes, and keys
        pressed before the listener is installed, change nothing. */
    method OnKeyDown(code: string, outerWidth: int) returns (scroll: RowScroll)
      requires Valid()
      modifies this`selectedTileX, this`selectedTileY, this`lastTileX, this`lastTileY, this`modal
      ensures Valid()
      ensures content == old(content)
      ensures old(keysListening) ==> Selected() == Navigate(content, old(Selected()), KeyOf(code))
      ensures !old(keysListening) || KeyOf(code) in {Enter, Backspace, Unhandled} ==>
        Selected() == old(Selected()) && Last() == old(Last()) && scroll == NoScroll
      ensures KeyOf(code) !in {Enter, Backspace} ==> modal == old(modal)
      ensures old(keysListening) && KeyOf(code) in {ArrowLeft, ArrowRight, ArrowUp, ArrowDown} ==>
        && Last() == HighlightedLast(content, Selected(), old(Last()))
        && scroll == HighlightScroll(content, Selected(), outerWidth)
      ensures old(keysListening) && KeyOf(code) == Enter ==>
        var t := TileAt(content, Selected());
        modal == if t.Some? then Open(BuildDetailModal(t.value, noImagePath)) else old(modal)
      ensures old(keysListening) && KeyOf(code) == Backspace ==> modal == Closed
    {
      scroll := NoScroll;
      if !keysListening {
        return;
      }
      match KeyOf(code) {
        case ArrowLeft => scroll := OnArrowLeft(outerWidth);
        case ArrowRight => scroll := OnArrowRight(outerWidth);
        case ArrowUp => scroll := OnArrowUp(outerWidth);
        case ArrowDown => scroll := OnArrowDown(outerWidth);
        case Enter => OnEnter();
        case Backspace => OnBackspace();
        case Unhandled =>
      }
    }
  }
}
