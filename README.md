# PDF watermark: the decision layer, in Dafny

This project models the integer and sequence logic of a single-page web app. The app stamps a
repeating watermark onto selected pages of an uploaded PDF. It can also export the watermark
alone as a transparent PNG. The model covers what gets drawn and where, not how the pixels
are produced:

- **Batch splitting** (`Chunking`, chunking.dfy). `chunkArray` in `src/utils.ts` cuts a list
  into consecutive groups of `step` elements. `ChunkArray` is its loop. `Chunks` is an
  independent recursive definition of the same result. The lemmas show that the chunks
  flatten back to the input, that there are `ceil(n / step)` of them, how big each one is,
  and which slice each one is.
- **Watermark content and export gating** (`Session`, session.dfy). The class `Session.App`
  holds the state of the `App` component: the chosen preset lines, the applied unit, the
  "applied" flag, the uploaded file and its name, the rendered page sizes, the current page
  and the page selection. Its methods are the event handlers. `Valid()` is the invariant
  they keep:
  - an applied unit was drawn from the current lines, so `unit.nums == |lines|`;
  - there is at least one line once a unit is applied, so the tile height is positive;
  - the selection has no duplicates and names only existing pages.

  The export button is enabled exactly when `CanExport()` holds.
- **Page selection** (`PageSelection`, selection.dfy). `Toggled` is the push/splice toggle
  and `AllPages` the reset on a new page list. Lemmas show that a toggle flips membership of
  the clicked page only, keeps the other pages in order, and keeps the selection
  duplicate-free and in range. Clicking an unselected page twice is a no-op.
- **Tiling geometry** (`Tiling`, tiling.dfy). A page tile is `222 × 168·lines`.
  `DrawWatermarks` is the export loop: for each selected page it draws `ceil(W/tw)` columns
  by `ceil(H/th)` rows of tiles at `(col·tw, row·th)`. Lemmas give:
  - the draw count;
  - coverage: every point of the page lies in some tile;
  - tightness: every tile starts inside the page.

  `RenderBlankTile` gives the blank export's canvas size. It shows that the translated fill
  rectangle covers exactly the whole canvas.
- **Output names** (`Naming`, naming.dfy).
  - The PDF is saved as the upload's name with every `.pdf` removed, then `_watermark.pdf`.
  - The PNG is saved as `watermark_<w>x<h>@2x.png`. Its decimal rendering is proved to read
    back, so different sizes never share a name.

Page sizes, tile sizes, the device pixel ratio and the blank-export size are positive (or
natural) integers, and `Math.ceil(a / b)` is `Arith.CeilDiv`. Calls into code outside the
core are parameters:
- the rasterizer's result is the argument of `Apply`, an `Option<Capture>`, so a failed
  capture is `None`;
- the sizes of the rendered pages are the argument of `LoadPages`;
- the page sizes of the re-parsed document are the argument of `Download`;
- the chosen blank-export size is the argument of `GenerateImage`.

Four preconditions stand for guards that live in the UI rather than in the handlers:
- `Apply` requires at least one line, because its button is rendered only then
  (src/App.tsx:601);
- `TogglePage` requires an existing page index, because its only caller passes the index of
  a rendered page (src/App.tsx:487-493);
- `Download` requires a loaded document and `GenerateImage` requires none, because only one
  of the two export buttons is shown (src/App.tsx:629-630);
- both exports require `CanExport()`, because both buttons are disabled without it
  (src/App.tsx:629-630).

`ClearFile` includes the reset that the component's page-list effect performs. Setting the
page list to a fresh empty array re-runs that effect, which empties the selection and
resets the current page (src/App.tsx:409-412).

## Model

| member | source | states |
|---|---|---|
| `Chunking.ChunkArray` | src/utils.ts:19-26 | the loop returns exactly the chunk list `Chunks(a, step)`; it flattens back to `a`; an empty input gives no chunk for any step; with a positive step there are `ceil(n/step)` chunks for an input of length `n` |
| `Chunking.FlattenChunks` | src/utils.ts:19-26 | concatenating the chunks in order gives back the input exactly |
| `Chunking.ChunkCount` | src/utils.ts:21 | there are `ceil(n/step)` chunks for an input of length `n`, so an empty input gives no chunk |
| `Chunking.ChunkSizes` | src/utils.ts:21-23 | every chunk is non-empty and has at most `step` elements; every chunk but the last has exactly `step` |
| `Chunking.ChunkAt` | src/utils.ts:21-22 | chunk `k` starts inside the input and is `a[k·step .. min(k·step+step, n)]` for an input of length `n`, so order is preserved |
| `Arith.CeilDiv` | src/App.tsx:209-210 | `Math.ceil(n/d)` is the least count of `d`-sized steps that reaches `n` |
| `Session.CapLines` | src/App.tsx:160-163 | the new value is kept as a suffix: a list of 3 loses its first entry, any other list is unchanged; an input of at most 3 gives at most 2 lines |
| `Session.App.constructor` | src/App.tsx:102-117 | the session starts with no file, no pages, no lines, no unit, not applied, an empty selection |
| `Session.App.CheckboxChange` | src/App.tsx:160-166 | the lines become the capped value and the applied flag is cleared; the unit and everything else are unchanged; the invariant is kept |
| `Session.App.Apply` | src/App.tsx:132-158 | a successful capture records the unit with `nums` equal to the number of chosen lines and sets the applied flag, which enables export; a failed capture changes nothing |
| `Session.App.OpenFile` | src/App.tsx:189-194 | reading an upload stores its bytes and name and leaves pages and selection for the renderer |
| `Session.App.LoadPages` | src/App.tsx:409-412 | a new page list makes page 0 current and sets the selection to exactly `AllPages(n)`, the indices `0..n-1` in increasing order |
| `Session.App.TogglePage` | src/App.tsx:261-270 | the clicked page's membership flips; no other page's membership changes; the others keep their order; the selection stays duplicate-free and inside the page range |
| `Session.App.CanExport` | src/App.tsx:629-630 | the export buttons are enabled when a unit exists and is applied; in a valid state that implies at least one chosen line and a tile of positive size |
| `Session.App.ClearFile` | src/App.tsx:321-330 | clearing drops the file, its name, the pages and the selection, resets the current page, and keeps the watermark state |
| `Session.App.Download` | src/App.tsx:197-226 | the tile is `222 × 168·nums` of the applied unit and is positive; each selected page gets its full tile grid; unselected pages get no draw; the embedded image is the unit's PNG; the name is the derived PDF name |
| `Session.App.GenerateImage` | src/App.tsx:288-313 | the blank export's canvas is `w·dpr × h·dpr`, its pattern tile is the unit at device resolution, the pattern is shifted by 138 and filled from `-138`, so the fill covers exactly the canvas, and the name is `watermark_<w>x<h>@2x.png` |
| `PageSelection.IndexOf` | src/App.tsx:262 | `indexOf` returns -1 exactly when the value is absent, and otherwise its first position |
| `PageSelection.Toggled` | src/App.tsx:261-269 | an absent page is added once and a present page is removed once: the length and the multiset of entries change by exactly `v` |
| `PageSelection.AllPages` | src/App.tsx:410 | the reset selection has one entry per page, in increasing order, without duplicates, inside `[0, n)` |
| `PageSelection.AllPagesSelectsEvery` | src/App.tsx:410-412 | after the reset every page index below `n` is selected |
| `PageSelection.ToggleMembership` | src/App.tsx:261-268 | on a duplicate-free selection the click makes the page selected iff it was not, and leaves every other page's membership alone |
| `PageSelection.ToggleKeepsOrder` | src/App.tsx:264-268 | the list with the clicked page filtered out is the same before and after, so other entries keep their order |
| `PageSelection.ToggleNoDup` | src/App.tsx:261-270 | a selection without duplicates stays without duplicates |
| `PageSelection.ToggleInRange` | src/App.tsx:261-270 | clicking one of `n` pages keeps every selected index inside `[0, n)` |
| `PageSelection.ToggleTwice` | src/App.tsx:264-268 | clicking an unselected page twice restores the selection exactly |
| `PageSelection.ToggleTwiceSelected` | src/App.tsx:264-268 | clicking a selected page twice moves it to the end of the selection |
| `Tiling.TileSize` | src/App.tsx:207-208 | the page tile is non-degenerate exactly when at least one line is chosen |
| `Tiling.Grid` | src/App.tsx:213-221 | every draw of the row/column loops is the unit image at exactly the tile size, with its origin at non-negative coordinates |
| `Tiling.PageGrid` | src/App.tsx:207-223 | the draws on one page are the grid of `ceil(W/tw)` columns by `ceil(H/th)` rows, each the unit image at the tile size |
| `Tiling.GridLength` | src/App.tsx:213-223 | the nested row/column loops make `rows · columns` draws |
| `Tiling.GridAt` | src/App.tsx:213-221 | draw number `row·columns + col` is the tile at `(col·tw, row·th)` of size `tw × th` |
| `Tiling.DrawCount` | src/App.tsx:206-223 | a page of `W × H` gets exactly `ceil(W/tw) · ceil(H/th)` draws |
| `Tiling.LetterPageDrawCount` | src/App.tsx:206-223 | a 612 × 792 page with two lines (tile 222 × 336) gets 3 × 3 = 9 draws |
| `Tiling.PageCovered` | src/App.tsx:206-223 | every point `0 ≤ x < W`, `0 ≤ y < H` lies inside some drawn tile |
| `Tiling.PageGridTight` | src/App.tsx:209-210 | every drawn tile starts inside the page, so no column or row is superfluous |
| `Tiling.DrawWatermarks` | src/App.tsx:201-224 | each selected page gets exactly its tile grid in row-major order; every other page gets no draw; an empty selection gives no draw |
| `Tiling.SourceTile` | src/App.tsx:296-299 | the blank export's pattern tile is the page tile scaled by the pixel ratio, non-degenerate iff both are positive |
| `Tiling.RenderBlankTile` | src/App.tsx:62-82 | the canvas is `w·dpr × h·dpr` and the pattern tile is the one passed in; the origin is shifted by `offsetX` and the fill starts at `-offsetX`, so it lands exactly on `[0, w·dpr) × [0, h·dpr)` |
| `Naming.RemoveAll` | src/App.tsx:255 | `replaceAll` with an empty replacement never lengthens the name |
| `Naming.RemoveAllDeletesOnly` | src/App.tsx:255 | `replaceAll` with an empty replacement only deletes: every character of the result, counted with multiplicity, comes from the name |
| `Naming.RemoveAllSplit` | src/App.tsx:255 | every occurrence of `.pdf` is removed wherever it stands: the text before and after it are cleaned independently and joined |
| `Naming.RemoveAllAbsent` | src/App.tsx:255 | a name without `.pdf` passes through `replaceAll` unchanged |
| `Naming.RemoveAllTrailingPdf` | src/App.tsx:255 | a trailing `.pdf` is always removed, whatever precedes it |
| `Naming.PdfExportName` | src/App.tsx:255-256 | the PDF download name always ends in `_watermark.pdf` and is at most 14 characters longer than the upload's name |
| `Naming.PdfExportNameOfPlainName` | src/App.tsx:255-256 | `report.pdf` is saved as `report_watermark.pdf` whenever the base name contains no `.pdf` |
| `Naming.Decimal` | src/App.tsx:309 | the number is rendered as a non-empty run of decimal digits without leading zero |
| `Naming.DecimalRoundTrip` | src/App.tsx:309 | reading the rendered digits back gives the number |
| `Naming.PngExportName` | src/App.tsx:309-313 | the PNG download name always starts with `watermark_` and ends with `@2x.png` |
| `Naming.PngExportNameInjective` | src/App.tsx:309-313 | two blank exports with different sizes never get the same file name |

## Left out

- DOM capture through html2canvas (`getDomCanvas`, src/utils.ts:3-17 and src/App.tsx:32-46), `toDataURL`, `toBlob` and the FileReader: a browser library with layout. Its outcome is the `Option<Capture>` argument of `Apply`.
- `base64ToImage`, the pixel compositing with the `exclusion` blend, and the pattern fill's colours: canvas APIs and floating-point colour math. Only sizes, offsets and the fill rectangle are modelled.
- pdf.js decoding and page rendering (src/App.tsx:350-407): an external library with promises and a 300 ms timer. Its result is the page list passed to `LoadPages`.
- pdf-lib `load`, `embedPng` and `save`: the document's page sizes are a parameter of `Download`; each `drawImage` is recorded as the rectangle it covers; the bytes are not produced.
- Blob, object-URL and anchor-click downloads, and the commented-out upload (src/App.tsx:227-249). Only the download names are modelled.
- The custom-text sub-flow (src/App.tsx:168-172, 333-340, 449-473): its text is rendered inside the captured watermark block (src/App.tsx:551-559), so it reaches every export only through the captured pixels, which are opaque here. Its flags, including the 20-character limit, gate neither "apply" nor export.
- The size presets and the debounced custom size input (src/App.tsx:272-286, 342-348); the `data` module is not part of this model. The chosen size is the argument of `GenerateImage`.
- The `generating` flag of `handleGenerateImage` (src/App.tsx:289, 318): it is display state only.
- The early returns inside `createCanvasWidthImage` (src/App.tsx:66, 79), which leave its promise pending, and the failed-`toBlob` path, which resolves to nothing: a 2D context and an encoder are assumed to be available.
- Scroll-into-view, zoom/pan, pagination, keyboard chrome, JSX (src/App.tsx:429-438 and the render).
- The preview scale `clientWidth / pageWidth` and the CSS background sizing (src/App.tsx:423-426, 525-526). These are floating-point display values; the preview tile is `nums·168·scale` tall.
- Concurrency: `Apply` is atomic. In the app the capture finishes asynchronously, and a checkbox change during a capture is not modelled. That race would set the applied flag with `unit.nums` different from the current number of lines, possibly zero lines; then `Math.ceil(height / 0)` is `Infinity` and the row loop at src/App.tsx:213 never ends. `Valid()` holds in the model only because `Apply` is atomic.
- Number representation: page sizes from pdf-lib are floating point, `devicePixelRatio` may be fractional, and canvas dimensions are truncated to integers. All of them are naturals here, and `Math.ceil` of a float quotient is exact integer ceiling division.
- Session.App.Download: the `!watermarkUnit?.bufferData` early return (src/App.tsx:199) is not a separate branch, because the `CanExport()` precondition already rules it out.
- Session.App.TogglePage: indices outside the page range are excluded by its precondition, so the model does not say what the handler would do with them.
- Naming.Decimal: integers of 10^21 and more, which JavaScript writes in exponent notation, are rendered as plain digits here, so `PngExportName` and its injectivity lemma speak for the JavaScript name only below 10^21.
