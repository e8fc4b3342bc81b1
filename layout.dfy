/**
 * Page composition: the overlay stamped on each copied page, and the
 * summary page that lists every identifier of the run.
 */
module Layout {
  import opened Basics

  /** An embedded barcode PNG, kept opaque. */
  datatype Image = Png(token: nat)

  /** One drawing call on a page, at (x, y) in the page's own coordinates (origin bottom-left). */
  datatype Draw =
    | DrawImage(image: Image, x: real, y: real, width: real, height: real)
    | DrawText(text: string, x: real, y: real, size: nat)

  /** A page of the uploaded document: its height and its (opaque) content. */
  datatype SourcePage = SourcePage(height: real, content: nat)

  /**
   * A page of the output document: its height, the content copied from the
   * source page (None for a blank page added by `addPage()`), and what was
   * drawn on top of it, in drawing order.
   */
  datatype OutPage = OutPage(height: real, base: Option<nat>, draws: seq<Draw>)

  /**
   * Height of the blank page `addPage()` creates when given no size: pdf-lib
   * then uses its A4 page size, 595.28 x 841.89 points.
   */
  const DefaultPageHeight: real := 841.89

  /** The blank marker drawn in the Completed and Posted columns. */
  const Blank := "_____________"

  /** Row spacing of the summary table. */
  const RowSpacing: real := 20.0

  /**
   * The copied page with its overlay: the barcode image in a 100 x 50 box at
   * (20, h - 80), the code text at (20, h - 90), the date text at (20, h - 110).
   */
  function Annotate(p: SourcePage, id: string, image: Image, localeDate: string): (q: OutPage)
    ensures q.height == p.height && q.base == Some(p.content) && |q.draws| == 3
  {
    OutPage(p.height, Some(p.content), [
      DrawImage(image, 20.0, p.height - 80.0, 100.0, 50.0),
      DrawText("Barcode: " + id, 20.0, p.height - 90.0, 12),
      DrawText("Date: " + localeDate, 20.0, p.height - 110.0, 12)
    ])
  }

  /** Where a drawing call is placed, without what it draws. */
  function Position(d: Draw): (real, real) {
    (d.x, d.y)
  }

  /**
   * The overlay keeps the source page (its size and its content) and adds
   * exactly three elements stacked from the top-left corner: the barcode box,
   * whose top edge is 30 points below the top of the page, then the code
   * text 10 points below the box, then the date text 20 points lower; all
   * three start 20 points from the left edge.
   */
  lemma AnnotateKeepsPageAndStacksOverlay(p: SourcePage, id: string, image: Image, localeDate: string)
    ensures var q := Annotate(p, id, image, localeDate);
      && q.height == p.height && q.base == Some(p.content)
      && |q.draws| == 3
      && q.draws[0] == DrawImage(image, 20.0, p.height - 80.0, 100.0, 50.0)
      && q.draws[0].y + q.draws[0].height == p.height - 30.0
      && q.draws[1].text == "Barcode: " + id && q.draws[1].y == q.draws[0].y - 10.0
      && q.draws[2].text == "Date: " + localeDate && q.draws[2].y == q.draws[1].y - 20.0
      && q.draws[1].size == 12 && q.draws[2].size == 12
      && q.draws[0].x == q.draws[1].x == q.draws[2].x == 20.0
  {
  }

  /** Overlay placement depends on the page height only, not on the page content, code, image or date. */
  lemma OverlayPlacementDependsOnHeightOnly(p1: SourcePage, id1: string, image1: Image, date1: string,
                                            p2: SourcePage, id2: string, image2: Image, date2: string)
    requires p1.height == p2.height
    ensures var d1, d2 := Annotate(p1, id1, image1, date1).draws, Annotate(p2, id2, image2, date2).draws;
      |d1| == |d2| && forall i :: 0 <= i < |d1| ==> Position(d1[i]) == Position(d2[i])
  {
  }

  /** Title and the three-column header of the summary table. */
  function SummaryHeading(h: real): seq<Draw> {
    [ DrawText("Summary Table", 50.0, h - 50.0, 16),
      DrawText("Barcode Name", 50.0, h - 80.0, 12),
      DrawText("Completed", 250.0, h - 80.0, 12),
      DrawText("Posted", 400.0, h - 80.0, 12) ]
  }

  /** One table row: the identifier, then the blank Completed and Posted markers, all at height y. */
  function RowDraws(id: string, y: real): seq<Draw> {
    [ DrawText(id, 50.0, y, 12), DrawText(Blank, 250.0, y, 12), DrawText(Blank, 400.0, y, 12) ]
  }

  /** The rows for `ids`, the first at height y, each next one RowSpacing lower. */
  function RowsFrom(ids: seq<string>, y: real): (draws: seq<Draw>)
    ensures |draws| == 3 * |ids|
  {
    if ids == [] then [] else RowDraws(ids[0], y) + RowsFrom(ids[1..], y - RowSpacing)
  }

  /** The summary page of height h for the identifiers of one run, in issuance order. */
  function SummaryPage(ids: seq<string>, h: real): (page: OutPage)
    ensures page.height == h && page.base == None && |page.draws| == 4 + 3 * |ids|
  {
    OutPage(h, None, SummaryHeading(h) + RowsFrom(ids, h - 100.0))
  }

  /** Baseline of row k of the summary table on a page of height h. */
  function RowY(h: real, k: nat): real {
    h - 100.0 - RowSpacing * (k as real)
  }

  /** Appending one identifier appends its row, RowSpacing lower per earlier row. */
  lemma {:induction false} RowsFromAppend(ids: seq<string>, id: string, y: real)
    ensures RowsFrom(ids + [id], y) == RowsFrom(ids, y) + RowDraws(id, y - RowSpacing * (|ids| as real))
  {
    if ids != [] {
      assert (ids + [id])[1..] == ids[1..] + [id];
      RowsFromAppend(ids[1..], id, y - RowSpacing);
    } else {
      assert ids + [id] == [id];
    }
  }

  /** Row k of RowsFrom(ids, y): the identifier ids[k] and two blanks at y - 20k. */
  lemma {:induction false} RowsFromAt(ids: seq<string>, y: real, k: nat)
    requires k < |ids|
    ensures RowsFrom(ids, y)[3 * k..3 * k + 3] == RowDraws(ids[k], y - RowSpacing * (k as real))
  {
    if k > 0 {
      RowsFromAt(ids[1..], y - RowSpacing, k - 1);
      var rest := RowsFrom(ids[1..], y - RowSpacing);
      assert RowsFrom(ids, y) == RowDraws(ids[0], y) + rest;
      assert RowsFrom(ids, y)[3 * k..3 * k + 3] == rest[3 * (k - 1)..3 * (k - 1) + 3];
    }
  }

  /**
   * The summary page is a blank page holding the title at h - 50, the header
   * at h - 80, and for every k the row of ids[k] at RowY(h, k) = h - 100 - 20k:
   * the identifier at x = 50 and blank markers at x = 250 and x = 400.
   */
  lemma SummaryPageRows(ids: seq<string>, h: real)
    ensures var page := SummaryPage(ids, h);
      && page.height == h && page.base == None
      && |page.draws| == 4 + 3 * |ids|
      && page.draws[0] == DrawText("Summary Table", 50.0, h - 50.0, 16)
      && page.draws[1..4] == [ DrawText("Barcode Name", 50.0, h - 80.0, 12),
                               DrawText("Completed", 250.0, h - 80.0, 12),
                               DrawText("Posted", 400.0, h - 80.0, 12) ]
      && forall k :: 0 <= k < |ids| ==>
           page.draws[4 + 3 * k..7 + 3 * k] == [ DrawText(ids[k], 50.0, RowY(h, k), 12),
                                                 DrawText(Blank, 250.0, RowY(h, k), 12),
                                                 DrawText(Blank, 400.0, RowY(h, k), 12) ]
  {
    var page := SummaryPage(ids, h);
    var rows := RowsFrom(ids, h - 100.0);
    forall k | 0 <= k < |ids|
      ensures page.draws[4 + 3 * k..7 + 3 * k] == RowDraws(ids[k], RowY(h, k))
    {
      RowsFromAt(ids, h - 100.0, k);
      assert page.draws[4 + 3 * k..7 + 3 * k] == rows[3 * k..3 * k + 3];
    }
  }

  /**
   * The table is not paginated: on a page of height h the baseline of row k
   * is on the page exactly while the k row spacings above it fit in the
   * h - 100 points below the header; every later row lies below the bottom edge.
   */
  lemma SummaryRowsOnPage(h: real, k: nat)
    ensures RowY(h, k) >= 0.0 <==> RowSpacing * (k as real) <= h - 100.0
    ensures k > 0 && RowY(h, k) >= 0.0 ==> RowY(h, k - 1) >= 0.0
  {
  }

  /** On the default A4 page exactly the first 38 rows (rows 0 to 37) have their baseline on the page. */
  lemma SummaryRowsOnDefaultPage(k: nat)
    ensures RowY(DefaultPageHeight, k) >= 0.0 <==> k < 38
  {
  }

  /**
   * Builds the summary page as the source does: title and header, then a
   * row per identifier while `yOffset` moves down by 20 after each row.
   */
  method BuildSummary(barcodeList: seq<string>, h: real) returns (page: OutPage)
    ensures page == SummaryPage(barcodeList, h)
  {
    var draws := [DrawText("Summary Table", 50.0, h - 50.0, 16)];
    var yOffset := h - 80.0;
    draws := draws + [DrawText("Barcode Name", 50.0, yOffset, 12)];
    draws := draws + [DrawText("Completed", 250.0, yOffset, 12)];
    draws := draws + [DrawText("Posted", 400.0, yOffset, 12)];
    yOffset := yOffset - 20.0;
    var i := 0;
    while i < |barcodeList|
      invariant 0 <= i <= |barcodeList|
      invariant yOffset == h - 100.0 - RowSpacing * (i as real)
      invariant draws == SummaryHeading(h) + RowsFrom(barcodeList[..i], h - 100.0)
    {
      var barcode := barcodeList[i];
      RowsFromAppend(barcodeList[..i], barcode, h - 100.0);
      assert barcodeList[..i + 1] == barcodeList[..i] + [barcode];
      draws := draws + [DrawText(barcode, 50.0, yOffset, 12)];
      draws := draws + [DrawText(Blank, 250.0, yOffset, 12)];
      draws := draws + [DrawText(Blank, 400.0, yOffset, 12)];
      yOffset := yOffset - 20.0;
      i := i + 1;
    }
    assert barcodeList[..i] == barcodeList;
    page := OutPage(h, None, draws);
  }
}
