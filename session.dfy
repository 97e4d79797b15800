/**
 * The state of the `App` component of src/App.tsx that decides what is exported:
 * the chosen watermark lines, the applied watermark unit, the uploaded document,
 * its page list and the page selection.
 */
module Session {
  import opened Tiling
  import opened PageSelection
  import opened Naming

  datatype Option<T> = None | Some(value: T)

  /** The rasterized watermark: its data-URL form, its PNG bytes and the number of lines it was drawn with. */
  datatype WatermarkUnit = WatermarkUnit(base64Data: string, bufferData: seq<bv8>, nums: nat)

  /** What one successful capture of the watermark markup yields. */
  datatype Capture = Capture(base64Data: string, bufferData: seq<bv8>)

  /** The watermarked PDF: its download name, the embedded tile image, the tile size and the draws per page. */
  datatype PdfExport = PdfExport(fileName: string, image: seq<bv8>, tile: Size, draws: seq<seq<Rect>>)

  /** The blank watermark image: its download name and its canvas geometry. */
  datatype PngExport = PngExport(fileName: string, render: BlankRender)

  /**
   * The checkbox group's new value, capped at two lines: a value of three
   * entries loses its first entry.
   */
  function CapLines(value: seq<string>): (r: seq<string>)
    ensures |r| <= |value| && r == value[|value| - |r|..]
    ensures |value| <= 3 ==> |r| == if |value| == 3 then 2 else |value|
    ensures |value| != 3 ==> r == value
  {
    if |value| == 3 then value[1..] else value
  }

  class App {
    /** `window.devicePixelRatio`, fixed for the session. */
    const devicePixelRatio: nat
    /** The uploaded PDF's bytes; `None` stands for the empty string the source uses when nothing is loaded. */
    var file: Option<seq<bv8>>
    var fileName: string
    /** `imageList`: the size at scale 1 of each rendered page. */
    var pages: seq<Size>
    var currentImage: nat
    /** `waterMarkValue`: the chosen preset lines, in the order the checkbox group reports them. */
    var lines: seq<string>
    /** `watermarkUnit`: the last applied unit, kept for the preview even once stale. */
    var unit: Option<WatermarkUnit>
    /** `generateWatermarkUnitFinish`: the unit matches the current lines. */
    var applied: bool
    /** `selectedPages`: the indices of the pages that get the watermark. */
    var selected: seq<int>

    /**
     * An applied unit was drawn from the current lines, of which there is at
     * least one; the selection names each page at most once and only pages that
     * exist.
     */
    ghost predicate Valid()
      reads this
    {
      && devicePixelRatio > 0
      && (applied ==> unit.Some? && unit.value.nums == |lines| && |lines| > 0)
      && NoDup(selected)
      && InRange(selected, |pages|)
    }

    /** Whether the export button is enabled: a unit exists and it is up to date. */
    predicate CanExport()
      reads this
      ensures Valid() && CanExport() ==> unit.Some? && |lines| > 0 && Positive(TileSize(unit.value.nums))
    {
      unit.Some? && applied
    }

    constructor (dpr: nat)
      requires dpr > 0
      ensures Valid() && devicePixelRatio == dpr
      ensures file == None && fileName == "" && pages == [] && currentImage == 0
      ensures lines == [] && unit == None && !applied && selected == []
    {
      devicePixelRatio := dpr;
      file, fileName := None, "";
      pages, currentImage := [], 0;
      lines, unit, applied := [], None, false;
      selected := [];
    }

    /** `handleCheckboxChange`: keep at most the two newest lines and mark the unit stale. */
    method CheckboxChange(value: seq<string>)
      requires Valid()
      modifies this
      ensures Valid()
      ensures lines == CapLines(value) && !applied
      ensures |value| <= 3 ==> |lines| <= 2
      ensures unit == old(unit) && selected == old(selected)
      ensures file == old(file) && fileName == old(fileName)
      ensures pages == old(pages) && currentImage == old(currentImage)
    {
      var v := value;
      if |v| == 3 {
        v := v[1..];
      }
      lines := v;
      applied := false;
    }

    /**
     * `generateWatermarkUnit`: on a successful capture, record the unit with
     * `nums = |lines|` and mark it applied; a failed capture changes nothing.
     * The "apply" button that runs it is shown only while some line is chosen.
     */
    method Apply(capture: Option<Capture>)
      requires Valid() && |lines| > 0
      modifies this
      ensures Valid()
      ensures capture.Some? ==>
                && applied && CanExport()
                && unit == Some(WatermarkUnit(capture.value.base64Data, capture.value.bufferData, |lines|))
      ensures capture.None? ==> unit == old(unit) && applied == old(applied)
      ensures lines == old(lines) && selected == old(selected)
      ensures file == old(file) && fileName == old(fileName)
      ensures pages == old(pages) && currentImage == old(currentImage)
    {
      if capture.Some? {
        unit := Some(WatermarkUnit(capture.value.base64Data, capture.value.bufferData, |lines|));
        applied := true;
      }
    }

    /** `handleFileChange`, once the reader has the bytes: the page list follows when rendering ends. */
    method OpenFile(bytes: seq<bv8>, name: string)
      requires Valid()
      modifies this
      ensures Valid()
      ensures file == Some(bytes) && fileName == name
      ensures pages == old(pages) && selected == old(selected) && currentImage == old(currentImage)
      ensures lines == old(lines) && unit == old(unit) && applied == old(applied)
    {
      file, fileName := Some(bytes), name;
    }

    /** A new page list: the first page becomes current and every page is selected, in page order. */
    method LoadPages(newPages: seq<Size>)
      requires Valid()
      modifies this
      ensures Valid()
      ensures pages == newPages && currentImage == 0
      ensures selected == AllPages(|newPages|)
      ensures |selected| == |newPages|
      ensures forall p :: 0 <= p < |newPages| ==> p in selected
      ensures file == old(file) && fileName == old(fileName)
      ensures lines == old(lines) && unit == old(unit) && applied == old(applied)
    {
      pages := newPages;
      currentImage := 0;
      selected := AllPages(|newPages|);
      AllPagesSelectsEvery(|newPages|);
    }

    /**
     * `handleChangeSelectedPage` on page `v`: push it when absent, splice it out
     * when present. The checkbox that calls it belongs to an existing page.
     */
    method TogglePage(v: int)
      requires Valid() && 0 <= v < |pages|
      modifies this
      ensures Valid()
      ensures selected == Toggled(old(selected), v)
      ensures v in selected <==> v !in old(selected)
      ensures forall u :: u != v ==> (u in selected <==> u in old(selected))
      ensures Without(selected, v) == Without(old(selected), v)
      ensures file == old(file) && fileName == old(fileName)
      ensures pages == old(pages) && currentImage == old(currentImage)
      ensures lines == old(lines) && unit == old(unit) && applied == old(applied)
    {
      ghost var before := selected;
      var index := IndexOf(selected, v);
      if index == -1 {
        selected := selected + [v];
      } else {
        selected := selected[..index] + selected[index + 1..];
      }
      ToggleNoDup(before, v);
      ToggleInRange(before, v, |pages|);
      ToggleKeepsOrder(before, v);
      ToggleMembership(before, v, v);
      forall u | u != v
        ensures u in selected <==> u in before
      {
        ToggleMembership(before, v, u);
      }
    }

    /** `handleClearFile`, with the reset its empty page list triggers: no document, no pages, no selection. */
    method ClearFile()
      requires Valid()
      modifies this
      ensures Valid()
      ensures file == None && fileName == "" && pages == [] && currentImage == 0 && selected == []
      ensures lines == old(lines) && unit == old(unit) && applied == old(applied)
    {
      file := None;
      pages := [];
      currentImage := 0;
      fileName := "";
      selected := AllPages(0);
    }

    /**
     * `handleDownload` on the document whose pages have sizes `doc`: the tile
     * is one unit wide and one line height tall per chosen line, which is the
     * line count the applied unit was drawn with; each selected page is covered
     * by the grid of tiles, the others are left untouched.
     */
    method Download(doc: seq<Size>) returns (out: PdfExport)
      requires Valid() && file.Some? && CanExport()
      ensures out.fileName == PdfExportName(fileName)
      ensures out.image == unit.value.bufferData
      ensures out.tile == TileSize(unit.value.nums) && Positive(out.tile)
      ensures |out.draws| == |doc|
      ensures forall i :: 0 <= i < |doc| && i in selected ==> out.draws[i] == PageGrid(doc[i], out.tile)
      ensures forall i :: 0 <= i < |doc| && i !in selected ==> out.draws[i] == []
    {
      var tile := TileSize(|lines|);
      var draws := DrawWatermarks(doc, selected, tile);
      out := PdfExport(PdfExportName(fileName), unit.value.bufferData, tile, draws);
    }

    /**
     * `handleGenerateImage` with no document loaded, for a blank image of
     * `width × height`: the unit is redrawn at device resolution as the
     * pattern tile and filled over the whole canvas with the pattern phase
     * shifted by `PhaseOffsetX`.
     */
    method GenerateImage(width: nat, height: nat) returns (out: PngExport)
      requires Valid() && file.None? && CanExport()
      ensures out.fileName == PngExportName(width, height)
      ensures out.render.canvas == Size(width * devicePixelRatio, height * devicePixelRatio)
      ensures out.render.tile == SourceTile(unit.value.nums, devicePixelRatio) && Positive(out.render.tile)
      ensures out.render.translateX == PhaseOffsetX
      ensures out.render.fill == Rect(-(PhaseOffsetX as int), 0, width * devicePixelRatio, height * devicePixelRatio)
      ensures Translate(out.render.fill, out.render.translateX) == Rect(0, 0, out.render.canvas.width, out.render.canvas.height)
    {
      var tile := SourceTile(|lines|, devicePixelRatio);
      var render := RenderBlankTile(width, height, devicePixelRatio, tile, PhaseOffsetX);
      out := PngExport(PngExportName(width, height), render);
    }
  }
}
