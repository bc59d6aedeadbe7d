/** Grid assembly (`merge_images.py`): the product images of one search are
    downloaded, the successes are placed on a grid of `columns` cells by
    their 1-based position in the URL list, and the canvas is sized by the
    number of successes. Pixels, borders and the JPEG file are not modelled;
    what each `GET` produced is an input. */
module MergeImages {
  import opened Strings
  import opened Sorting
  import Paths

  /** The bytes of a downloaded image. */
  type Content = seq<bv8>

  /** What one `session.get` with `raise_for_status` and `Image.open`
      produced. */
  datatype Fetch = Fetched(content: Content) | SslFailure | OtherFailure

  /** `download_image`'s result, how many requests it made and whether the
      session still verifies certificates afterwards. */
  datatype Download = Download(image: Option<Content>, attempts: nat, verifyAfter: bool)

  /** `download_image(url, session, verify_ssl=verifySsl)`: `first` is what
      the request produced, `retry` what a second request made with
      certificate checks switched off would produce. */
  function DownloadImage(verifySsl: bool, first: Fetch, retry: Fetch): (d: Download)
    ensures d.image.Some? ==> first.Fetched? || retry.Fetched?
    ensures !verifySsl ==> !d.verifyAfter
  {
    match first
    case Fetched(c) => Download(Some(c), 1, verifySsl)
    case OtherFailure => Download(None, 1, verifySsl)
    case SslFailure =>
      if verifySsl then Download(if retry.Fetched? then Some(retry.content) else None, 2, false)
      else Download(None, 1, verifySsl)
  }

  /** Only a certificate failure with checks on is retried, exactly once and
      with checks off; a failed retry, a certificate failure with checks off
      and any other failure all give no image. */
  lemma DownloadRetry(verifySsl: bool, first: Fetch, retry: Fetch)
    ensures DownloadImage(verifySsl, first, retry).attempts == (if first.SslFailure? && verifySsl then 2 else 1)
    ensures first.Fetched? ==> DownloadImage(verifySsl, first, retry).image == Some(first.content)
    ensures first.SslFailure? && verifySsl ==>
      DownloadImage(verifySsl, first, retry).image == (if retry.Fetched? then Some(retry.content) else None)
      && !DownloadImage(verifySsl, first, retry).verifyAfter
    ensures first.OtherFailure? || (first.SslFailure? && !verifySsl) ==>
      DownloadImage(verifySsl, first, retry).image == None
  {
  }

  /** The download result for the URL at 0-based position `j`. */
  function Image(j: nat, verifySsl: bool, first: nat -> Fetch, retry: nat -> Fetch): Option<Content> {
    DownloadImage(verifySsl, first(j), retry(j)).image
  }

  /** The completion order of the pool: each position of the URL list exactly
      once. */
  predicate IsOrder(order: seq<nat>, n: nat) {
    |order| == n
    && (forall i :: 0 <= i < |order| ==> order[i] < n)
    && (forall i, j :: 0 <= i < j < |order| ==> order[i] != order[j])
  }

  /** `images`: the `(idx, img)` pairs of the successes, `idx` 1-based, in
      completion order. */
  function Collected(order: seq<nat>, verifySsl: bool, first: nat -> Fetch, retry: nat -> Fetch): (r: seq<(Position, Content)>)
    ensures |r| <= |order|
  {
    if order == [] then []
    else
      var j := order[|order| - 1];
      var img := Image(j, verifySsl, first, retry);
      Collected(order[..|order| - 1], verifySsl, first, retry) + (if img.Some? then [(j + 1, img.value)] else [])
  }

  /** `failed_urls`: the `(idx, url)` pairs of the failures, in completion
      order. */
  function FailedOf(order: seq<nat>, urls: seq<string>, verifySsl: bool, first: nat -> Fetch, retry: nat -> Fetch): (r: seq<(Position, string)>)
    requires forall i :: 0 <= i < |order| ==> order[i] < |urls|
    ensures |r| <= |order|
  {
    if order == [] then []
    else
      var j := order[|order| - 1];
      FailedOf(order[..|order| - 1], urls, verifySsl, first, retry)
        + (if Image(j, verifySsl, first, retry).None? then [(j + 1, urls[j])] else [])
  }

  function Indices<T>(ps: seq<(Position, T)>): (r: seq<nat>)
    ensures |r| == |ps|
    ensures forall k :: 0 <= k < |ps| ==> r[k] == ps[k].0
  {
    if ps == [] then [] else Indices(ps[..|ps| - 1]) + [ps[|ps| - 1].0]
  }

  /** Every URL is collected or failed, never both: the 1-based positions
      of the successes are those whose download gave an image, those of the
      failures the others, and the two counts add up to the number of URLs. */
  lemma CollectPartition(order: seq<nat>, urls: seq<string>, verifySsl: bool, first: nat -> Fetch, retry: nat -> Fetch)
    requires forall i :: 0 <= i < |order| ==> order[i] < |urls|
    ensures |Collected(order, verifySsl, first, retry)| + |FailedOf(order, urls, verifySsl, first, retry)| == |order|
    ensures forall k :: k in Indices(Collected(order, verifySsl, first, retry)) <==>
      1 <= k && k - 1 in order && Image(k - 1, verifySsl, first, retry).Some?
    ensures forall k :: k in Indices(FailedOf(order, urls, verifySsl, first, retry)) <==>
      1 <= k && k - 1 in order && Image(k - 1, verifySsl, first, retry).None?
  {
    CollectCount(order, urls, verifySsl, first, retry);
    CollectedIndices(order, verifySsl, first, retry);
    FailedIndices(order, urls, verifySsl, first, retry);
  }

  lemma {:induction false} CollectCount(order: seq<nat>, urls: seq<string>, verifySsl: bool, first: nat -> Fetch, retry: nat -> Fetch)
    requires forall i :: 0 <= i < |order| ==> order[i] < |urls|
    ensures |Collected(order, verifySsl, first, retry)| + |FailedOf(order, urls, verifySsl, first, retry)| == |order|
  {
    if order != [] {
      CollectCount(order[..|order| - 1], urls, verifySsl, first, retry);
    }
  }

  lemma IndicesSnoc<T>(ps: seq<(Position, T)>, p: (Position, T))
    ensures Indices(ps + [p]) == Indices(ps) + [p.0]
  {
    assert (ps + [p])[..|ps|] == ps;
  }

  lemma CollectedIndices(order: seq<nat>, verifySsl: bool, first: nat -> Fetch, retry: nat -> Fetch)
    ensures forall k :: k in Indices(Collected(order, verifySsl, first, retry)) <==>
      1 <= k && k - 1 in order && Image(k - 1, verifySsl, first, retry).Some?
  {
    forall k ensures k in Indices(Collected(order, verifySsl, first, retry)) <==>
      1 <= k && k - 1 in order && Image(k - 1, verifySsl, first, retry).Some?
    {
      CollectedIndex(order, verifySsl, first, retry, k);
    }
  }

  /** One completion step seen through the positions: the last download
      adds its 1-based position exactly when it gave an image. */
  lemma CollectedIndicesStep(order: seq<nat>, verifySsl: bool, first: nat -> Fetch, retry: nat -> Fetch)
    requires order != []
    ensures Indices(Collected(order, verifySsl, first, retry))
      == Indices(Collected(order[..|order| - 1], verifySsl, first, retry))
        + (if Image(order[|order| - 1], verifySsl, first, retry).Some? then [order[|order| - 1] + 1] else [])
  {
    var c := Collected(order[..|order| - 1], verifySsl, first, retry);
    var j := order[|order| - 1];
    var img := Image(j, verifySsl, first, retry);
    if img.Some? {
      IndicesSnoc(c, (j + 1, img.value));
    } else {
      assert Collected(order, verifySsl, first, retry) == c;
    }
  }

  lemma FailedIndicesStep(order: seq<nat>, urls: seq<string>, verifySsl: bool, first: nat -> Fetch, retry: nat -> Fetch)
    requires order != []
    requires forall i :: 0 <= i < |order| ==> order[i] < |urls|
    ensures Indices(FailedOf(order, urls, verifySsl, first, retry))
      == Indices(FailedOf(order[..|order| - 1], urls, verifySsl, first, retry))
        + (if Image(order[|order| - 1], verifySsl, first, retry).None? then [order[|order| - 1] + 1] else [])
  {
    var f := FailedOf(order[..|order| - 1], urls, verifySsl, first, retry);
    var j := order[|order| - 1];
    if Image(j, verifySsl, first, retry).None? {
      IndicesSnoc(f, (j + 1, urls[j]));
    } else {
      assert FailedOf(order, urls, verifySsl, first, retry) == f;
    }
  }

  lemma {:induction false} CollectedIndex(order: seq<nat>, verifySsl: bool, first: nat -> Fetch, retry: nat -> Fetch, k: int)
    ensures k in Indices(Collected(order, verifySsl, first, retry)) <==>
      1 <= k && k - 1 in order && Image(k - 1, verifySsl, first, retry).Some?
  {
    if order != [] {
      var init := order[..|order| - 1];
      var j := order[|order| - 1];
      CollectedIndex(init, verifySsl, first, retry, k);
      CollectedIndicesStep(order, verifySsl, first, retry);
      assert order == init + [j];
    }
  }

  lemma FailedIndices(order: seq<nat>, urls: seq<string>, verifySsl: bool, first: nat -> Fetch, retry: nat -> Fetch)
    requires forall i :: 0 <= i < |order| ==> order[i] < |urls|
    ensures forall k :: k in Indices(FailedOf(order, urls, verifySsl, first, retry)) <==>
      1 <= k && k - 1 in order && Image(k - 1, verifySsl, first, retry).None?
  {
    forall k ensures k in Indices(FailedOf(order, urls, verifySsl, first, retry)) <==>
      1 <= k && k - 1 in order && Image(k - 1, verifySsl, first, retry).None?
    {
      FailedIndex(order, urls, verifySsl, first, retry, k);
    }
  }

  lemma {:induction false} FailedIndex(order: seq<nat>, urls: seq<string>, verifySsl: bool, first: nat -> Fetch, retry: nat -> Fetch, k: int)
    requires forall i :: 0 <= i < |order| ==> order[i] < |urls|
    ensures k in Indices(FailedOf(order, urls, verifySsl, first, retry)) <==>
      1 <= k && k - 1 in order && Image(k - 1, verifySsl, first, retry).None?
  {
    if order != [] {
      var init := order[..|order| - 1];
      var j := order[|order| - 1];
      FailedIndex(init, urls, verifySsl, first, retry, k);
      FailedIndicesStep(order, urls, verifySsl, first, retry);
      assert order == init + [j];
    }
  }

  /** The successes carry distinct positions, each within the URL list. */
  lemma CollectedDistinct(order: seq<nat>, n: nat, verifySsl: bool, first: nat -> Fetch, retry: nat -> Fetch)
    requires forall i :: 0 <= i < |order| ==> order[i] < n
    requires forall i, j :: 0 <= i < j < |order| ==> order[i] != order[j]
    ensures var c := Collected(order, verifySsl, first, retry);
      (forall k :: 0 <= k < |c| ==> 1 <= c[k].0 <= n)
      && forall k, l :: 0 <= k < l < |c| ==> c[k].0 != c[l].0
  {
    var c := Collected(order, verifySsl, first, retry);
    forall k | 0 <= k < |c| ensures 1 <= c[k].0 <= n {
      CollectedFrom(order, verifySsl, first, retry, k);
    }
    CollectedUnique(order, verifySsl, first, retry);
  }

  lemma {:induction false} CollectedUnique(order: seq<nat>, verifySsl: bool, first: nat -> Fetch, retry: nat -> Fetch)
    requires forall i, j :: 0 <= i < j < |order| ==> order[i] != order[j]
    ensures var c := Collected(order, verifySsl, first, retry);
      forall k, l :: 0 <= k < l < |c| ==> c[k].0 != c[l].0
  {
    if order != [] {
      var init := order[..|order| - 1];
      var j := order[|order| - 1];
      assert forall i :: 0 <= i < |init| ==> init[i] == order[i];
      CollectedUnique(init, verifySsl, first, retry);
      var c := Collected(init, verifySsl, first, retry);
      var img := Image(j, verifySsl, first, retry);
      var d := c + (if img.Some? then [(j + 1, img.value)] else []);
      assert Collected(order, verifySsl, first, retry) == d;
      if img.Some? {
        assert j !in init by {
          assert forall i :: 0 <= i < |init| ==> init[i] != order[|order| - 1];
        }
        CollectedIndex(init, verifySsl, first, retry, j + 1);
      }
      forall k, l | 0 <= k < l < |d| ensures d[k].0 != d[l].0 {
        assert d[k] == c[k];
        if l < |c| {
          assert d[l] == c[l];
        } else {
          assert d[l].0 == j + 1 && Indices(c)[k] == c[k].0;
        }
      }
    }
  }

  /** Each success comes from some position of the order. */
  lemma {:induction false} CollectedFrom(order: seq<nat>, verifySsl: bool, first: nat -> Fetch, retry: nat -> Fetch, k: nat)
    requires k < |Collected(order, verifySsl, first, retry)|
    ensures exists i :: 0 <= i < |order| && Collected(order, verifySsl, first, retry)[k].0 == order[i] + 1
  {
    var init := order[..|order| - 1];
    var c := Collected(init, verifySsl, first, retry);
    if k < |c| {
      CollectedFrom(init, verifySsl, first, retry, k);
      var i :| 0 <= i < |init| && c[k].0 == init[i] + 1;
      assert order[i] == init[i];
    } else {
      assert Collected(order, verifySsl, first, retry)[k].0 == order[|order| - 1] + 1;
    }
  }

  /** `(n + columns - 1) // columns`. */
  function Rows(n: nat, columns: nat): nat
    requires columns > 0
  {
    (n + columns - 1) / columns
  }

  lemma {:induction false} MulMono(a: nat, b: nat, size: nat)
    requires a <= b
    ensures a * size <= b * size
    decreases b - a
  {
    if a < b {
      MulMono(a + 1, b, size);
      assert (a + 1) * size == a * size + size;
    }
  }

  /** `x // c` is at least `k` once `x` reaches `k*c`. */
  lemma DivAtLeast(x: nat, c: nat, k: nat)
    requires c > 0 && x >= k * c
    ensures x / c >= k
  {
    var q := x / c;
    assert x == q * c + x % c;
    if q < k {
      MulMono(q + 1, k, c);
    }
  }

  /** The row count is the ceiling of `n / columns`: enough rows for `n`
      cells, and one fewer would not be. */
  lemma RowsCeil(n: nat, columns: nat)
    requires columns > 0
    ensures Rows(n, columns) * columns >= n
    ensures n > 0 ==> (Rows(n, columns) - 1) * columns < n
    ensures n == 0 ==> Rows(n, columns) == 0
  {
    var x := n + columns - 1;
    var r := x / columns;
    assert x == r * columns + x % columns;
    if n > 0 {
      assert (r - 1) * columns == r * columns - columns;
    }
  }

  /** A 1-based position in the URL list. */
  type Position = i: nat | i >= 1 witness 1

  /** A pasted image: its position and its top-left corner. */
  datatype Cell = Cell(index: Position, x: nat, y: nat)

  /** The canvas and the cells pasted on it. */
  datatype Canvas = Canvas(rows: nat, width: nat, height: nat, cells: seq<Cell>)

  /** The cell of position `index`: row `(index-1)//columns`, column
      `(index-1)%columns`; it always fits the canvas width. */
  function CellAt(index: Position, columns: nat, cellWidth: nat, cellHeight: nat): (c: Cell)
    requires columns > 0
    ensures c.index == index
    ensures c.x + cellWidth <= columns * cellWidth
  {
    var col := (index - 1) % columns;
    MulMono(col + 1, columns, cellWidth);
    assert (col + 1) * cellWidth == col * cellWidth + cellWidth;
    Cell(index, col * cellWidth, ((index - 1) / columns) * cellHeight)
  }

  /** Distinct positions give cells that do not overlap, whatever order the
      downloads completed in. */
  lemma CellsDisjoint(i: Position, j: Position, columns: nat, cellWidth: nat, cellHeight: nat)
    requires i != j && columns > 0 && cellWidth > 0 && cellHeight > 0
    ensures var a, b := CellAt(i, columns, cellWidth, cellHeight), CellAt(j, columns, cellWidth, cellHeight);
      a.x + cellWidth <= b.x || b.x + cellWidth <= a.x || a.y + cellHeight <= b.y || b.y + cellHeight <= a.y
  {
    var a, b := CellAt(i, columns, cellWidth, cellHeight), CellAt(j, columns, cellWidth, cellHeight);
    var ri, ci := (i - 1) / columns, (i - 1) % columns;
    var rj, cj := (j - 1) / columns, (j - 1) % columns;
    assert a.x == ci * cellWidth && a.y == ri * cellHeight;
    assert b.x == cj * cellWidth && b.y == rj * cellHeight;
    if ri == rj {
      assert ci != cj by {
        assert i - 1 == ri * columns + ci && j - 1 == rj * columns + cj;
      }
      if ci < cj {
        CellSteps(ci, cj, cellWidth);
      } else {
        CellSteps(cj, ci, cellWidth);
      }
    } else if ri < rj {
      CellSteps(ri, rj, cellHeight);
    } else {
      CellSteps(rj, ri, cellHeight);
    }
  }

  lemma CellSteps(a: nat, b: nat, size: nat)
    requires a < b
    ensures a * size + size <= b * size
  {
    MulMono(a + 1, b, size);
    assert (a + 1) * size == a * size + size;
  }

  /** A position within the first `n` lies inside a canvas sized for `n`
      cells. */
  lemma CellInside(index: Position, n: nat, columns: nat, cellWidth: nat, cellHeight: nat)
    requires index <= n && columns > 0
    ensures CellAt(index, columns, cellWidth, cellHeight).y + cellHeight <= Rows(n, columns) * cellHeight
  {
    var m := index - 1;
    var row := m / columns;
    assert m == row * columns + m % columns;
    assert (row + 1) * columns == row * columns + columns;
    DivAtLeast(n + columns - 1, columns, row + 1);
    CellSteps(row, Rows(n, columns), cellHeight);
  }

  /** The pasting loop: one cell per collected image, in collection order. */
  function Layout(images: seq<(Position, Content)>, columns: nat, cellWidth: nat, cellHeight: nat): (cells: seq<Cell>)
    requires columns > 0
    ensures |cells| == |images|
    ensures forall k :: 0 <= k < |images| ==> cells[k] == CellAt(images[k].0, columns, cellWidth, cellHeight)
  {
    seq(|images|, k requires 0 <= k < |images| => CellAt(images[k].0, columns, cellWidth, cellHeight))
  }

  /** The canvas `merge_images_grid` draws: `columns*cellWidth` wide and as
      many rows high as the successes need. */
  function CanvasFor(images: seq<(Position, Content)>, columns: nat, cellWidth: nat, cellHeight: nat): (c: Canvas)
    requires columns > 0
    ensures c.rows * columns >= |images| && c.width == columns * cellWidth && c.height == c.rows * cellHeight
    ensures |images| > 0 ==> (c.rows - 1) * columns < |images|
    ensures c.cells == Layout(images, columns, cellWidth, cellHeight)
  {
    RowsCeil(|images|, columns);
    var rows := Rows(|images|, columns);
    Canvas(rows, columns * cellWidth, rows * cellHeight, Layout(images, columns, cellWidth, cellHeight))
  }

  /** `merge_images_grid`: `order` is the order the pool completed the
      downloads in. It returns nothing for an empty list or when no download
      succeeded, and otherwise `str(Path(output_path))`, together with the collected
      successes and failures and the canvas it saved. */
  method MergeImagesGrid(urls: seq<string>, outputPath: string, columns: nat, cellWidth: nat, cellHeight: nat,
                         noSslVerify: bool, first: nat -> Fetch, retry: nat -> Fetch, order: seq<nat>)
      returns (r: Option<string>, images: seq<(Position, Content)>, failed: seq<(Position, string)>, canvas: Option<Canvas>)
    requires columns > 0 && IsOrder(order, |urls|)
    ensures urls == [] ==> r == None && images == [] && failed == []
    ensures urls != [] ==>
      images == Collected(order, !noSslVerify, first, retry)
      && failed == FailedOf(order, urls, !noSslVerify, first, retry)
    ensures r.Some? <==> images != []
    ensures r.Some? ==> r.value == Paths.Normalize(outputPath)
    ensures canvas.Some? <==> r.Some?
    ensures canvas.Some? ==> canvas.value == CanvasFor(images, columns, cellWidth, cellHeight)
  {
    if urls == [] {
      return None, [], [], None;
    }
    images, failed := CollectDownloads(urls, !noSslVerify, first, retry, order);
    if images == [] {
      return None, images, failed, None;
    }
    var rows := (|images| + columns - 1) / columns;
    var width := columns * cellWidth;
    var height := rows * cellHeight;
    var cells := PlaceCells(images, columns, cellWidth, cellHeight);
    canvas := Some(Canvas(rows, width, height, cells));
    r := Some(Paths.Normalize(outputPath));
  }

  /** The collection loop over the completed downloads. */
  method CollectDownloads(urls: seq<string>, verifySsl: bool, first: nat -> Fetch, retry: nat -> Fetch, order: seq<nat>)
      returns (images: seq<(Position, Content)>, failed: seq<(Position, string)>)
    requires forall i :: 0 <= i < |order| ==> order[i] < |urls|
    ensures images == Collected(order, verifySsl, first, retry)
    ensures failed == FailedOf(order, urls, verifySsl, first, retry)
  {
    images, failed := [], [];
    var i := 0;
    while i < |order|
      invariant 0 <= i <= |order|
      invariant images == Collected(order[..i], verifySsl, first, retry)
      invariant failed == FailedOf(order[..i], urls, verifySsl, first, retry)
    {
      var j := order[i];
      assert order[..i + 1][..i] == order[..i];
      var d := DownloadImage(verifySsl, first(j), retry(j));
      if d.image.Some? {
        images := images + [(j + 1, d.image.value)];
      } else {
        failed := failed + [(j + 1, urls[j])];
      }
      i := i + 1;
    }
    assert order[..i] == order;
  }

  /** The pasting loop: the corner of each image's cell. */
  method PlaceCells(images: seq<(Position, Content)>, columns: nat, cellWidth: nat, cellHeight: nat) returns (cells: seq<Cell>)
    requires columns > 0
    ensures cells == Layout(images, columns, cellWidth, cellHeight)
  {
    cells := [];
    for k := 0 to |images|
      invariant cells == Layout(images[..k], columns, cellWidth, cellHeight)
    {
      var idx := images[k].0;
      var row := (idx - 1) / columns;
      var col := (idx - 1) % columns;
      cells := cells + [Cell(idx, col * cellWidth, row * cellHeight)];
    }
    assert images[..|images|] == images;
  }

  /** When every download succeeds, every pasted cell lies on the canvas. */
  lemma AllFetchedInside(order: seq<nat>, urls: seq<string>, columns: nat, cellWidth: nat, cellHeight: nat,
                         verifySsl: bool, first: nat -> Fetch, retry: nat -> Fetch)
    requires columns > 0 && IsOrder(order, |urls|)
    requires forall j :: 0 <= j < |urls| ==> Image(j, verifySsl, first, retry).Some?
    ensures var images := Collected(order, verifySsl, first, retry);
      |images| == |urls|
      && forall k :: 0 <= k < |images| ==>
        1 <= images[k].0 <= |images|
        && CellAt(images[k].0, columns, cellWidth, cellHeight).y + cellHeight <= Rows(|images|, columns) * cellHeight
  {
    var images := Collected(order, verifySsl, first, retry);
    CollectedDistinct(order, |urls|, verifySsl, first, retry);
    CollectPartition(order, urls, verifySsl, first, retry);
    var failed := FailedOf(order, urls, verifySsl, first, retry);
    NoFailures(order, urls, verifySsl, first, retry);
    forall k | 0 <= k < |images|
      ensures CellAt(images[k].0, columns, cellWidth, cellHeight).y + cellHeight <= Rows(|images|, columns) * cellHeight
    {
      CellInside(images[k].0, |images|, columns, cellWidth, cellHeight);
    }
  }

  lemma {:induction false} NoFailures(order: seq<nat>, urls: seq<string>, verifySsl: bool, first: nat -> Fetch, retry: nat -> Fetch)
    requires forall i :: 0 <= i < |order| ==> order[i] < |urls|
    requires forall j :: 0 <= j < |urls| ==> Image(j, verifySsl, first, retry).Some?
    ensures FailedOf(order, urls, verifySsl, first, retry) == []
  {
    if order != [] {
      NoFailures(order[..|order| - 1], urls, verifySsl, first, retry);
    }
  }

  /** With failures the canvas can be too short: of six URLs on five
      columns only the sixth downloads, the canvas gets one row, and that
      image's cell starts on the second. */
  lemma FailureLeavesImageOffCanvas(content: Content)
    ensures var images := [(6, content)];
      var c := CanvasFor(images, 5, 200, 200);
      c.height == 200 && c.cells[0].y == 200 && c.cells[0].y >= c.height
  {
  }

  /** `main`'s `--urls`: the comma-separated entries, each stripped, the
      empty ones dropped. */
  function UrlList(arg: string): seq<string> {
    Filter(StripEach(Split(arg, ',')), NonBlank)
  }

  /** Every parsed URL is non-empty, stripped and free of commas. */
  lemma UrlListEntries(arg: string)
    ensures forall u :: u in UrlList(arg) ==> u != [] && Strip(u) == u && ',' !in u
  {
    var pieces := Split(arg, ',');
    var parts := StripEach(pieces);
    assert forall k :: 0 <= k < |parts| ==> Strip(parts[k]) == parts[k] && ',' !in parts[k] by {
      forall k | 0 <= k < |parts| ensures Strip(parts[k]) == parts[k] && ',' !in parts[k] {
        CleanPiece(pieces[k], ',');
      }
    }
    CleanFilter(parts);
  }

  lemma CleanFilter(parts: seq<string>)
    requires forall k :: 0 <= k < |parts| ==> Strip(parts[k]) == parts[k] && ',' !in parts[k]
    ensures forall u :: u in Filter(parts, NonBlank) ==> u != [] && Strip(u) == u && ',' !in u
  {
    FilterMembers(parts, NonBlank);
    forall u | u in Filter(parts, NonBlank) ensures u != [] && Strip(u) == u && ',' !in u {
      var k :| 0 <= k < |parts| && parts[k] == u;
      assert Strip(u) != [];
    }
  }

  /** A stripped piece that held no separator still holds none. */
  lemma CleanPiece(p: string, sep: char)
    requires sep !in p
    ensures Strip(Strip(p)) == Strip(p) && sep !in Strip(p)
  {
    StripIdempotent(p);
    StripInside(p);
  }

  /** A list of non-empty, comma-free, stripped URLs survives being joined
      with commas and parsed back. */
  lemma UrlListRoundTrip(urls: seq<string>)
    requires urls != []
    requires forall k :: 0 <= k < |urls| ==> urls[k] != [] && ',' !in urls[k] && Strip(urls[k]) == urls[k]
    ensures UrlList(Join(urls, [','])) == urls
  {
    assert Split(Join(urls, [',']), ',') == urls by {
      SplitJoin(urls, ',');
    }
    assert StripEach(urls) == urls;
    assert Filter(urls, NonBlank) == urls by {
      forall k | 0 <= k < |urls| ensures NonBlank(urls[k]) {
        assert Strip(urls[k]) != [];
      }
      FilterAll(urls, NonBlank);
    }
  }
}
