/**
 * generate_pdf itself: a loop over the input lines that moves a cursor `y`
 * down the page and draws on a canvas whose current page and font it
 * changes in place.
 */
module Renderer {
  import opened Lines
  import opened Markdown
  import opened PageLayout

  /** What the saved PDF holds: its pages and every string drawn on them. */
  datatype Document = Document(pageCount: nat, draws: seq<Draw>)

  /**
   * reportlab's canvas, reduced to what generate_pdf can observe: the index
   * of the page being drawn, the current font, and the strings drawn so far.
   */
  class Canvas {
    var page: nat
    var font: Font
    var draws: seq<Draw>

    /** A fresh canvas: first page, nothing drawn, reportlab's default Helvetica 12. */
    constructor ()
      ensures page == 0 && font == Regular && draws == []
    {
      page := 0;
      font := Regular;
      draws := [];
    }

    /** `setFont`: later strings use `f`. */
    method SetFont(f: Font)
      modifies this
      ensures font == f
      ensures page == old(page) && draws == old(draws)
    {
      font := f;
    }

    /** `drawString(x, y, text)`: records the string on the current page in the current font. */
    method DrawString(x: int, y: int, text: string)
      modifies this
      ensures draws == old(draws) + [Draw(page, x, y, font, text)]
      ensures page == old(page) && font == old(font)
    {
      draws := draws + [Draw(page, x, y, font, text)];
    }

    /** `showPage`: closes the current page; later strings go on the next one. */
    method ShowPage()
      modifies this
      ensures page == old(page) + 1
      ensures font == old(font) && draws == old(draws)
    {
      page := page + 1;
    }

    /** `save`: closes the current page and hands out the document. */
    method Save() returns (doc: Document)
      ensures doc.pageCount == page + 1 && doc.draws == draws
    {
      doc := Document(page + 1, draws);
    }
  }

  /**
   * Renders `text` line by line. The draws and the page count are those of
   * the layout function Render, so every property proved of Render holds of
   * the document; in particular every draw lies on one of its pages.
   */
  method GeneratePdf(text: string, wrap: Wrap) returns (doc: Document)
    ensures doc.draws == Render(Split(text), wrap).draws
    ensures doc.pageCount == Render(Split(text), wrap).cursor.page + 1
    ensures forall i :: 0 <= i < |doc.draws| ==> doc.draws[i].page < doc.pageCount
  {
    var pdf := new Canvas();
    pdf.SetFont(Regular);
    var y := 750;
    var lines := Split(text);
    ghost var done := Start;
    for i := 0 to |lines|
      invariant done == Render(lines[..i], wrap)
      invariant pdf.draws == done.draws && pdf.page == done.cursor.page && y == done.cursor.y
    {
      var line := lines[i];
      RenderNext(lines, i, wrap);
      if StartsWith(line, "# ") {
        pdf.SetFont(HeadingOneFont);
        pdf.DrawString(50, y, line[2..]);
        HeadingOneLine(done, line, wrap);
      } else if StartsWith(line, "## ") {
        pdf.SetFont(HeadingTwoFont);
        pdf.DrawString(50, y, line[3..]);
        HeadingTwoLine(done, line, wrap);
      } else if StartsWith(line, "- ") {
        pdf.SetFont(Regular);
        var wrapped := wrap(BulletPrefix + line[2..], "Helvetica", 12, 500);
        y := DrawColumn(pdf, y, wrapped);
        StepBullet(done, line, wrap);
        done := Step(done, line, wrap);
        continue;
      } else {
        pdf.SetFont(Regular);
        var wrapped := wrap(line, "Helvetica", 12, 500);
        y := DrawColumn(pdf, y, wrapped);
        StepBody(done, line, wrap);
      }

      y := y - 20;

      if y < 50 {
        pdf.ShowPage();
        pdf.SetFont(Regular);
        y := 750;
      }
      done := Step(done, line, wrap);
    }
    assert lines[..|lines|] == lines;
    doc := pdf.Save();
    DrawsAboveCursor(lines, wrap);
  }

  /**
   * The inner loop of the bullet and body branches: each piece drawn at the
   * cursor, which then drops by 20.
   */
  method DrawColumn(pdf: Canvas, y: int, pieces: seq<string>) returns (y': int)
    modifies pdf
    ensures pdf.draws == old(pdf.draws) + Column(old(pdf.page), y, old(pdf.font), pieces)
    ensures pdf.page == old(pdf.page) && pdf.font == old(pdf.font)
    ensures y' == y - 20 * |pieces|
  {
    y' := y;
    for j := 0 to |pieces|
      invariant pdf.draws == old(pdf.draws) + Column(old(pdf.page), y, old(pdf.font), pieces[..j])
      invariant pdf.page == old(pdf.page) && pdf.font == old(pdf.font)
      invariant y' == y - 20 * j
    {
      pdf.DrawString(50, y', pieces[j]);
      y' := y' - 20;
      assert Column(pdf.page, y, pdf.font, pieces[..j + 1])
          == Column(pdf.page, y, pdf.font, pieces[..j]) + [Draw(pdf.page, 50, y - 20 * j, pdf.font, pieces[j])];
    }
    assert pieces[..|pieces|] == pieces;
  }
}
