/**
 * The bottom margin. The page-break test of generate_pdf runs once per
 * non-bullet line, after all of its sub-lines are drawn, and never after a
 * bullet, so a run of bullets (or a body paragraph that wraps into many
 * pieces) is drawn below y = 50, and past the bottom edge of the page at
 * y = 0. This module exhibits that, and gives the layout the comment
 * "New page if needed" evidently intends: the page-break test before every
 * draw, which keeps every string between 50 and 750 and draws the same
 * strings in the same order.
 */
module Margins {
  import opened Lines
  import opened Markdown
  import opened PageLayout

  // ----- as written: strings drawn off the page -----

  /** `n` copies of `line`. */
  function Repeat(line: string, n: nat): seq<string>
    decreases n
  {
    if n == 0 then [] else Repeat(line, n - 1) + [line]
  }

  /** Draw i is on the first page at y = 750 - 20 * i. */
  predicate Stacked(ds: seq<Draw>) {
    forall i :: 0 <= i < |ds| ==> ds[i].page == 0 && ds[i].y == 750 - 20 * i
  }

  /** One more one-piece bullet keeps the draws stacked and moves the cursor 20 down. */
  lemma BulletStacks(r: Rendering, line: string, wrap: Wrap)
    requires StartsWith(line, "- ")
    requires |wrap(BulletPrefix + line[2..], "Helvetica", 12, 500)| == 1
    requires Stacked(r.draws) && r.cursor == Cursor(0, 750 - 20 * |r.draws|)
    ensures var after := Step(r, line, wrap);
            Stacked(after.draws) && after.cursor == Cursor(0, 750 - 20 * |after.draws|)
  {
    var n := |r.draws|;
    var ds := Step(r, line, wrap).draws;
    BulletLine(r, line, wrap);
    forall i | 0 <= i < |ds| ensures ds[i].page == 0 && ds[i].y == 750 - 20 * i {
      if i < n {
        assert ds[i] == ds[..n][i] == r.draws[i];
      } else {
        assert ds[i] == ds[n + 0];
      }
    }
  }

  /**
   * A run of bullets that each wrap to one piece stays on the first page, one
   * piece every 20 points, however long the run: the cursor is never checked.
   */
  lemma {:induction false} BulletRun(line: string, n: nat, wrap: Wrap)
    requires StartsWith(line, "- ")
    requires |wrap(BulletPrefix + line[2..], "Helvetica", 12, 500)| == 1
    ensures var r := Render(Repeat(line, n), wrap);
            |r.draws| == n && Stacked(r.draws) && r.cursor == Cursor(0, 750 - 20 * n)
    decreases n
  {
    if n > 0 {
      var before := Render(Repeat(line, n - 1), wrap);
      BulletRun(line, n - 1, wrap);
      assert Render(Repeat(line, n), wrap) == Step(before, line, wrap) by {
        RenderSnoc(Repeat(line, n - 1), line, wrap);
      }
      BulletStacks(before, line, wrap);
      BulletLine(before, line, wrap);
    }
  }

  /** The 39th of a run of one-piece bullets at the top of a document is drawn at y = -10, below the page. */
  lemma BulletsRunOffPage(line: string, wrap: Wrap)
    requires StartsWith(line, "- ")
    requires |wrap(BulletPrefix + line[2..], "Helvetica", 12, 500)| == 1
    ensures var ds := Render(Repeat(line, 39), wrap).draws;
            |ds| == 39 && ds[38].page == 0 && ds[38].y == -10
  {
    BulletRun(line, 39, wrap);
  }

  // ----- corrected: a page-break test before every draw -----

  /** Every draw lies between the bottom margin and the top of the text area. */
  predicate WithinMargins(ds: seq<Draw>) {
    forall i :: 0 <= i < |ds| ==> 50 <= ds[i].y <= 750
  }

  /** The page-break test, run before a draw: a new page if the cursor is below Bottom. */
  function BreakIfLow(c: Cursor): (at: Cursor)
    ensures c.y <= Top ==> Bottom <= at.y <= Top
    ensures at.page == c.page + 1 <==> c.y < Bottom
    ensures at.page == c.page + 1 ==> at.y == Top
    ensures at.page == c.page ==> at == c
    ensures at.page == c.page || at.page == c.page + 1
  {
    if c.y < Bottom then Cursor(c.page + 1, Top) else c
  }

  /** Draws `texts` one LineHeight apart, each after the page-break test. */
  function ColumnChecked(c: Cursor, font: Font, texts: seq<string>): (r: Rendering)
    ensures |r.draws| == |texts|
    ensures c.y <= Top ==> WithinMargins(r.draws) && r.cursor.y <= Top
    decreases |texts|
  {
    if texts == [] then Rendering([], c)
    else
      var at := BreakIfLow(c);
      var rest := ColumnChecked(Cursor(at.page, at.y - LineHeight), font, texts[1..]);
      Rendering([Draw(at.page, Left, at.y, font, texts[0])] + rest.draws, rest.cursor)
  }

  /** One line, as generate_pdf with the page-break test moved in front of every draw. */
  function StepChecked(r: Rendering, line: string, wrap: Wrap): Rendering {
    var k := Classify(line);
    var c := r.cursor;
    match k
    case HeadingOne(t) =>
      var at := BreakIfLow(c);
      Rendering(r.draws + [Draw(at.page, Left, at.y, HeadingOneFont, t)], ParagraphBreak(at.page, at.y))
    case HeadingTwo(t) =>
      var at := BreakIfLow(c);
      Rendering(r.draws + [Draw(at.page, Left, at.y, HeadingTwoFont, t)], ParagraphBreak(at.page, at.y))
    case Bullet(_) =>
      var col := ColumnChecked(c, Regular, SubLines(k, wrap));
      Rendering(r.draws + col.draws, col.cursor)
    case Body(_) =>
      var col := ColumnChecked(c, Regular, SubLines(k, wrap));
      Rendering(r.draws + col.draws, ParagraphBreak(col.cursor.page, col.cursor.y))
  }

  /** The corrected layout: no string is ever drawn below y = 50 or above y = 750. */
  function RenderChecked(lines: seq<string>, wrap: Wrap): (r: Rendering)
    ensures WithinMargins(r.draws) && r.cursor.y <= Top
    decreases |lines|
  {
    if lines == [] then Start
    else StepChecked(RenderChecked(lines[..|lines| - 1], wrap), lines[|lines| - 1], wrap)
  }

  lemma {:induction false} ColumnCheckedContent(c: Cursor, font: Font, texts: seq<string>)
    ensures Content(ColumnChecked(c, font, texts).draws) == Styled(font, texts)
    decreases |texts|
  {
    if texts != [] {
      var at := BreakIfLow(c);
      var rest := ColumnChecked(Cursor(at.page, at.y - LineHeight), font, texts[1..]);
      ColumnCheckedContent(Cursor(at.page, at.y - LineHeight), font, texts[1..]);
      ContentAppend([Draw(at.page, Left, at.y, font, texts[0])], rest.draws);
    }
  }

  /** The correction moves strings, never adds, drops or reorders them: same content as generate_pdf. */
  lemma {:induction false} CheckedContentPreserved(lines: seq<string>, wrap: Wrap)
    ensures Content(RenderChecked(lines, wrap).draws) == Source(lines, wrap)
    decreases |lines|
  {
    if lines != [] {
      var init := lines[..|lines| - 1];
      var before := RenderChecked(init, wrap);
      var k := Classify(lines[|lines| - 1]);
      CheckedContentPreserved(init, wrap);
      ColumnCheckedContent(before.cursor, Regular, SubLines(k, wrap));
      var added := RenderChecked(lines, wrap).draws[|before.draws|..];
      assert RenderChecked(lines, wrap).draws == before.draws + added;
      ContentAppend(before.draws, added);
    }
  }
}
