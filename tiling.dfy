/**
 * Geometry of the two exports of src/App.tsx: the grid of watermark tiles drawn
 * onto each selected PDF page, and the canvas of the blank watermark image.
 */
module Tiling {
  import opened Arith

  /** Width of one watermark unit, in CSS pixels and in PDF points alike. */
  const UnitWidth: nat := 222
  /** Height of the unit per content line. */
  const LineHeight: nat := 168
  /** Horizontal phase of the pattern in the blank export. */
  const PhaseOffsetX: nat := 138

  datatype Size = Size(width: nat, height: nat)

  /** An axis-aligned rectangle with its origin at (x, y). */
  datatype Rect = Rect(x: int, y: int, width: nat, height: nat)

  predicate Positive(s: Size) {
    s.width > 0 && s.height > 0
  }

  predicate Contains(r: Rect, px: int, py: int) {
    r.x <= px < r.x + r.width && r.y <= py < r.y + r.height
  }

  /** The tile drawn on a PDF page for a watermark of `lineCount` content lines. */
  function TileSize(lineCount: nat): (t: Size)
    ensures Positive(t) <==> lineCount > 0
  {
    Size(UnitWidth, LineHeight * lineCount)
  }

  /** A draw of the unit image: exactly tile-sized, with its origin in the first quadrant. */
  predicate Drawn(d: Rect, tile: Size) {
    d.width == tile.width && d.height == tile.height && d.x >= 0 && d.y >= 0
  }

  /** Row `row` of the grid: `cols` tiles side by side at `(col * tw, row * th)`. */
  function GridRow(tile: Size, row: nat, cols: nat): (r: seq<Rect>)
    ensures |r| == cols
  {
    seq(cols, col => Rect(col * tile.width, row * tile.height, tile.width, tile.height))
  }

  /** Rows `0 .. rows - 1` of the grid, row after row: the order in which the export draws. */
  function Grid(tile: Size, rows: nat, cols: nat): (r: seq<Rect>)
    ensures forall k :: 0 <= k < |r| ==> Drawn(r[k], tile)
  {
    if rows == 0 then [] else Grid(tile, rows - 1, cols) + GridRow(tile, rows - 1, cols)
  }

  /** The draws made on one page: `ceil(W / tw)` columns by `ceil(H / th)` rows. */
  function PageGrid(page: Size, tile: Size): (r: seq<Rect>)
    requires Positive(tile)
    ensures forall k :: 0 <= k < |r| ==> Drawn(r[k], tile)
  {
    Grid(tile, CeilDiv(page.height, tile.height), CeilDiv(page.width, tile.width))
  }

  lemma {:induction false} GridLength(tile: Size, rows: nat, cols: nat)
    ensures |Grid(tile, rows, cols)| == rows * cols
  {
    if rows > 0 {
      GridLength(tile, rows - 1, cols);
      assert (rows - 1) * cols + cols == rows * cols;
    }
  }

  /** Draw number `row * cols + col` is the tile at `(col * tw, row * th)`. */
  lemma {:induction false} GridAt(tile: Size, rows: nat, cols: nat, row: nat, col: nat)
    requires row < rows && col < cols
    ensures |Grid(tile, rows, cols)| == rows * cols
    ensures row * cols + col < rows * cols
    ensures Grid(tile, rows, cols)[row * cols + col]
         == Rect(col * tile.width, row * tile.height, tile.width, tile.height)
  {
    GridLength(tile, rows, cols);
    GridLength(tile, rows - 1, cols);
    assert row * cols + col < (row + 1) * cols;
    MulLe(row + 1, rows, cols);
    if row < rows - 1 {
      GridAt(tile, rows - 1, cols, row, col);
      MulLe(row + 1, rows - 1, cols);
    } else {
      assert row * cols + col == (rows - 1) * cols + col;
    }
  }

  /** A page of `W × H` gets exactly `ceil(W / tw) * ceil(H / th)` draws. */
  lemma DrawCount(page: Size, tile: Size)
    requires Positive(tile)
    ensures |PageGrid(page, tile)| == CeilDiv(page.width, tile.width) * CeilDiv(page.height, tile.height)
  {
    GridLength(tile, CeilDiv(page.height, tile.height), CeilDiv(page.width, tile.width));
  }

  /** A US-letter page of 612 × 792 points with two lines chosen gets three columns by three rows of tiles. */
  lemma LetterPageDrawCount()
    ensures |PageGrid(Size(612, 792), TileSize(2))| == 9
  {
    DrawCount(Size(612, 792), TileSize(2));
  }

  /** A coordinate below `n` cells of width `d` lies in cell `x / d`, which is one of the `n`. */
  lemma CellOf(x: nat, d: nat, n: nat)
    requires d > 0 && x < n * d
    ensures x / d < n && (x / d) * d <= x < (x / d) * d + d
  {
    DivBelow(x, n, d);
    DivBounds(x, d);
  }

  /** Every point of the page lies inside some drawn tile: the watermark leaves no gap. */
  lemma PageCovered(page: Size, tile: Size, px: int, py: int)
    requires Positive(tile)
    requires 0 <= px < page.width && 0 <= py < page.height
    ensures exists k :: 0 <= k < |PageGrid(page, tile)| && Contains(PageGrid(page, tile)[k], px, py)
  {
    var rows, cols := CeilDiv(page.height, tile.height), CeilDiv(page.width, tile.width);
    var row, col := py / tile.height, px / tile.width;
    CellOf(px, tile.width, cols);
    CellOf(py, tile.height, rows);
    GridAt(tile, rows, cols, row, col);
    var k := row * cols + col;
    assert Contains(PageGrid(page, tile)[k], px, py);
  }

  /**
   * No draw is wasted: every tile starts inside the page. Tiles may run over the
   * far edges, but never by a whole tile.
   */
  lemma PageGridTight(page: Size, tile: Size, k: nat)
    requires Positive(tile)
    requires k < |PageGrid(page, tile)|
    ensures 0 <= PageGrid(page, tile)[k].x < page.width
    ensures 0 <= PageGrid(page, tile)[k].y < page.height
  {
    var rows, cols := CeilDiv(page.height, tile.height), CeilDiv(page.width, tile.width);
    var g := PageGrid(page, tile);
    GridLength(tile, rows, cols);
    assert cols > 0 && rows > 0;
    var row, col := k / cols, k % cols;
    DivBounds(k, cols);
    assert k == row * cols + col;
    DivBelow(k, rows, cols);
    GridAt(tile, rows, cols, row, col);
    assert g[k] == Rect(col * tile.width, row * tile.height, tile.width, tile.height);
    MulLe(col, cols - 1, tile.width);
    MulLe(row, rows - 1, tile.height);
    assert (cols - 1) * tile.width < page.width;
    assert (rows - 1) * tile.height < page.height;
  }

  /**
   * The export loop: for page `i` of the document, when `i` is selected, draw
   * the tile at every `(col * tw, row * th)`, row by row. Unselected pages get
   * nothing. `drawImage` is recorded as the rectangle it covers.
   */
  method DrawWatermarks(pages: seq<Size>, selected: seq<int>, tile: Size) returns (draws: seq<seq<Rect>>)
    requires Positive(tile)
    ensures |draws| == |pages|
    ensures forall i :: 0 <= i < |pages| && i in selected ==> draws[i] == PageGrid(pages[i], tile)
    ensures forall i :: 0 <= i < |pages| && i !in selected ==> draws[i] == []
  {
    draws := [];
    var i := 0;
    while i < |pages|
      invariant 0 <= i <= |pages| && |draws| == i
      invariant forall j :: 0 <= j < i && j in selected ==> draws[j] == PageGrid(pages[j], tile)
      invariant forall j :: 0 <= j < i && j !in selected ==> draws[j] == []
    {
      var page: seq<Rect> := [];
      if i in selected {
        var columns := CeilDiv(pages[i].width, tile.width);
        var rows := CeilDiv(pages[i].height, tile.height);
        var row := 0;
        while row < rows
          invariant 0 <= row <= rows
          invariant page == Grid(tile, row, columns)
        {
          var col := 0;
          while col < columns
            invariant 0 <= col <= columns
            invariant page == Grid(tile, row, columns) + GridRow(tile, row, columns)[..col]
          {
            assert GridRow(tile, row, columns)[..col + 1]
                == GridRow(tile, row, columns)[..col] + [Rect(col * tile.width, row * tile.height, tile.width, tile.height)];
            page := page + [Rect(col * tile.width, row * tile.height, tile.width, tile.height)];
            col := col + 1;
          }
          assert GridRow(tile, row, columns)[..columns] == GridRow(tile, row, columns);
          row := row + 1;
        }
      }
      draws := draws + [page];
      i := i + 1;
    }
  }

  /** The blank-tile export's canvas, and where its pattern fill lands. */
  datatype BlankRender = BlankRender(
    canvas: Size,     // the output canvas, in device pixels
    tile: Size,       // the pattern tile, in device pixels
    translateX: int,  // the origin shift applied before filling
    fill: Rect)       // the fill rectangle, in the shifted coordinates

  /** The pattern tile of the blank export: one unit drawn at device resolution. */
  function SourceTile(lineCount: nat, dpr: nat): (t: Size)
    ensures t == Size(TileSize(lineCount).width * dpr, TileSize(lineCount).height * dpr)
    ensures Positive(t) <==> dpr > 0 && lineCount > 0
  {
    Size(UnitWidth * dpr, LineHeight * lineCount * dpr)
  }

  /** A rectangle seen in the unshifted coordinates once the origin has moved by `dx`. */
  function Translate(r: Rect, dx: int): Rect {
    Rect(r.x + dx, r.y, r.width, r.height)
  }

  /**
   * `createCanvasWidthImage` on a blank background: a canvas of `w * dpr × h * dpr`,
   * origin shifted right by `offsetX`, then the pattern filled from `-offsetX` on.
   * In device coordinates the fill is exactly the whole canvas: no strip is left
   * bare at the shifted edge and nothing is filled outside it.
   */
  function RenderBlankTile(w: nat, h: nat, dpr: nat, tile: Size, offsetX: nat): (r: BlankRender)
    ensures r.canvas == Size(w * dpr, h * dpr) && r.tile == tile
    ensures r.translateX == offsetX && r.fill == Rect(-(offsetX as int), 0, w * dpr, h * dpr)
    ensures Translate(r.fill, r.translateX) == Rect(0, 0, r.canvas.width, r.canvas.height)
    ensures forall px, py :: Contains(Translate(r.fill, r.translateX), px, py)
                         <==> 0 <= px < w * dpr && 0 <= py < h * dpr
  {
    var width := w * dpr;
    var height := h * dpr;
    BlankRender(Size(width, height), tile, offsetX, Rect(-(offsetX as int), 0, width, height))
  }
}
