/** The vertical stacking of `create_pdf_report`: every element's baseline is
    the previous element's position minus its height and a fixed gap. Only
    coordinates are modelled, in PDF points measured up from the page bottom. */
module ReportLayout {

  /** reportlab's centimetre in points: 72 points per inch, 2.54 cm per inch. */
  const Cm: real := 72.0 / 2.54

  /** reportlab's A4 page, 21 cm by 29.7 cm. */
  const A4Width: real := 21.0 * Cm
  const A4Height: real := 29.7 * Cm

  /** The summary lists the window size and the two peak counts. */
  const SummaryLines: nat := 3

  datatype PageLayout = PageLayout(
    titleY: real,
    summaryHeaderY: real,
    summaryLineYs: seq<real>,
    mainImageY: real,
    mainImageHeight: real,
    zoomTitleY: real,
    zoomImageY: real,
    zoomImageHeight: real,
    footerY: real,
    leftX: real,
    imageWidth: real,
    footerRightX: real)

  /** Top edge of the full-range plot. */
  function MainImageTop(l: PageLayout): (top: real)
  {
    l.mainImageY + l.mainImageHeight
  }

  /** Top edge of the zoomed plot. */
  function ZoomImageTop(l: PageLayout): (top: real)
  {
    l.zoomImageY + l.zoomImageHeight
  }

  /** The coordinates `create_pdf_report` computes for a page of the given
      size and a summary of `lines` lines, measured in centimetres below the
      page top: title 2.5, "Summary:" 3.5, summary line k at 4.5 + 0.6k, the
      full plot's bottom 13.25 + 0.6n, the zoom title 1 cm under that, the zoom
      plot's bottom 9.3 cm under the title; footer 1.5 cm above the bottom. */
  function Layout(width: real, height: real, lines: nat): (l: PageLayout)
    ensures |l.summaryLineYs| == lines
    ensures lines > 0 ==> l.summaryLineYs[0] == height - 4.5 * Cm
    ensures forall k :: 0 <= k < lines - 1 ==> l.summaryLineYs[k] - l.summaryLineYs[k + 1] == 0.6 * Cm
    ensures l.mainImageY == height - (13.25 + 0.6 * (lines as real)) * Cm
    ensures l.zoomTitleY == height - (14.25 + 0.6 * (lines as real)) * Cm
    ensures l.zoomImageY == height - (23.55 + 0.6 * (lines as real)) * Cm
    ensures l.mainImageHeight == l.zoomImageHeight == 9.0 * Cm
    ensures l.titleY == height - 2.5 * Cm
    ensures l.summaryHeaderY == height - 3.5 * Cm
    ensures l.footerY == 1.5 * Cm
    ensures l.leftX == 2.0 * Cm
    ensures l.imageWidth == width - 4.0 * Cm
    ensures l.footerRightX == width - 2.0 * Cm
    ensures l.leftX + l.imageWidth == l.footerRightX
  {
    var summaryY := height - 4.5 * Cm;
    var lineSpacing := 0.6 * Cm;
    var mainImageHeight := 9.0 * Cm;
    var mainImageY := summaryY - (lines as real) * lineSpacing - mainImageHeight + 0.25 * Cm;
    var zoomTitleY := mainImageY - 1.0 * Cm;
    var zoomImageHeight := 9.0 * Cm;
    var zoomImageY := zoomTitleY - zoomImageHeight - 0.3 * Cm;
    PageLayout(
      height - 2.5 * Cm,
      height - 3.5 * Cm,
      seq(lines, k requires 0 <= k < lines => summaryY - (k as real) * lineSpacing),
      mainImageY,
      mainImageHeight,
      zoomTitleY,
      zoomImageY,
      zoomImageHeight,
      1.5 * Cm,
      2.0 * Cm,
      width - 4.0 * Cm,
      width - 2.0 * Cm)
  }

  /** Whatever the page size and summary length, the elements descend in
      order and none overlaps the next: title, header, summary lines, the
      full plot (its top 0.35 cm under the last summary line), the zoom title,
      the zoom plot. */
  lemma LayoutStacksDownward(width: real, height: real, lines: nat)
    ensures var l := Layout(width, height, lines);
      && l.titleY > l.summaryHeaderY
      && (lines > 0 ==> l.summaryHeaderY > l.summaryLineYs[0])
      && (forall k :: 0 <= k < lines - 1 ==> l.summaryLineYs[k] > l.summaryLineYs[k + 1])
      && (lines > 0 ==> MainImageTop(l) == l.summaryLineYs[lines - 1] - 0.35 * Cm)
      && MainImageTop(l) < l.summaryHeaderY
      && MainImageTop(l) > l.mainImageY > l.zoomTitleY > ZoomImageTop(l) > l.zoomImageY
  {
  }

  /** The zoomed plot stays clear of the footer baseline exactly when the page
      is taller than 25.05 cm plus 0.6 cm per summary line. */
  lemma FitsAboveFooterIff(width: real, height: real, lines: nat)
    ensures Layout(width, height, lines).zoomImageY > Layout(width, height, lines).footerY
      <==> height > (25.05 + 0.6 * (lines as real)) * Cm
  {
  }

  /** On A4 with the three summary lines the zoomed plot's bottom edge is at
      4.35 cm, above the 1.5 cm footer; the title is inside the page and both
      plots span the width between equal 2 cm margins, ending where the
      right-aligned footer ends. */
  lemma A4ReportFits()
    ensures var l := Layout(A4Width, A4Height, SummaryLines);
      && l.zoomImageY == 4.35 * Cm
      && l.zoomImageY > l.footerY > 0.0
      && l.titleY < A4Height
      && l.leftX + l.imageWidth == l.footerRightX == A4Width - l.leftX
  {
  }
}
