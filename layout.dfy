/**
 * The page layout of generate_pdf as a function of its input lines: which
 * strings are drawn, in which font, on which page and at which (x, y), and
 * where the vertical cursor stands after each line.
 *
 * reportlab's `simpleSplit` is the parameter `wrap`, an arbitrary total
 * function of (text, font name, font size, maximum width): nothing is assumed
 * about how it breaks a line, not even that it returns a line at all.
 */
module PageLayout {
  import opened Lines
  import opened Markdown

  datatype Font = Font(name: string, size: int)

  const Regular := Font("Helvetica", 12)
  const HeadingOneFont := Font("Helvetica-Bold", 16)
  const HeadingTwoFont := Font("Helvetica-Bold", 14)

  /** Left margin: every string is drawn at this x. */
  const Left := 50
  /** Where the cursor starts on every page. */
  const Top := 750
  /** A non-bullet line that leaves the cursor below this starts a new page. */
  const Bottom := 50
  /** The cursor drops this much per drawn sub-line and per paragraph. */
  const LineHeight := 20
  /** Width passed to simpleSplit. */
  const MaxWidth := 500

  /** The literal that replaces "- " (a mis-encoded bullet character and a space). */
  const BulletPrefix: string := "\U{e2}\U{20ac}\U{a2} "

  /** simpleSplit(text, fontName, fontSize, maxWidth). */
  type Wrap = (string, string, int, int) -> seq<string>

  /** One `drawString` on a page. */
  datatype Draw = Draw(page: nat, x: int, y: int, font: Font, text: string)

  /** The page being drawn on and the vertical cursor `y`. */
  datatype Cursor = Cursor(page: nat, y: int)

  /** The draws so far and the cursor they leave. */
  datatype Rendering = Rendering(draws: seq<Draw>, cursor: Cursor)

  function Wrapped(wrap: Wrap, text: string): seq<string> {
    wrap(text, Regular.name, Regular.size, MaxWidth)
  }

  /** The strings a line is drawn as, top to bottom: headings unwrapped, the rest wrapped. */
  function SubLines(k: LineKind, wrap: Wrap): seq<string> {
    match k
    case HeadingOne(t) => [t]
    case HeadingTwo(t) => [t]
    case Bullet(t) => Wrapped(wrap, BulletPrefix + t)
    case Body(t) => Wrapped(wrap, t)
  }

  /** The font each branch sets before drawing. */
  function Style(k: LineKind): Font {
    match k
    case HeadingOne(_) => HeadingOneFont
    case HeadingTwo(_) => HeadingTwoFont
    case Bullet(_) => Regular
    case Body(_) => Regular
  }

  /** `texts` drawn at x = Left from `y` downwards, one LineHeight apart. */
  function Column(page: nat, y: int, font: Font, texts: seq<string>): seq<Draw> {
    seq(|texts|, i requires 0 <= i < |texts| => Draw(page, Left, y - LineHeight * i, font, texts[i]))
  }

  /** The paragraph step after a non-bullet line: drop by LineHeight, then a new page if below Bottom. */
  function ParagraphBreak(page: nat, y: int): Cursor {
    if y - LineHeight < Bottom then Cursor(page + 1, Top) else Cursor(page, y - LineHeight)
  }

  /**
   * The cursor after a line. A heading moves it only by the paragraph step; a
   * body line first drops one LineHeight per sub-line; a bullet drops per
   * sub-line and then skips both the paragraph step and the page-break test.
   */
  function Advance(k: LineKind, c: Cursor, wrap: Wrap): Cursor {
    match k
    case HeadingOne(_) => ParagraphBreak(c.page, c.y)
    case HeadingTwo(_) => ParagraphBreak(c.page, c.y)
    case Bullet(_) => Cursor(c.page, c.y - LineHeight * |SubLines(k, wrap)|)
    case Body(_) => ParagraphBreak(c.page, c.y - LineHeight * |SubLines(k, wrap)|)
  }

  /** One iteration of the loop over the input lines. */
  function Step(r: Rendering, line: string, wrap: Wrap): Rendering {
    var k := Classify(line);
    Rendering(r.draws + Column(r.cursor.page, r.cursor.y, Style(k), SubLines(k, wrap)),
              Advance(k, r.cursor, wrap))
  }

  /** Nothing drawn yet, first page, cursor at the top. */
  const Start := Rendering([], Cursor(0, Top))

  /** The layout of `lines`, processed in order. */
  function Render(lines: seq<string>, wrap: Wrap): Rendering
    decreases |lines|
  {
    if lines == [] then Start
    else Step(Render(lines[..|lines| - 1], wrap), lines[|lines| - 1], wrap)
  }

  lemma RenderSnoc(lines: seq<string>, line: string, wrap: Wrap)
    ensures Render(lines + [line], wrap) == Step(Render(lines, wrap), line, wrap)
  {
    assert (lines + [line])[..|lines|] == lines;
  }

  /**
   * The loop only appends: the draws of the first i lines are a prefix of
   * the draws of all of them, so no later line moves or removes a string.
   */
  lemma {:induction false} EarlierDrawsKept(lines: seq<string>, i: nat, wrap: Wrap)
    requires i <= |lines|
    ensures Render(lines[..i], wrap).draws <= Render(lines, wrap).draws
    decreases |lines|
  {
    if i < |lines| {
      var init := lines[..|lines| - 1];
      assert init[..i] == lines[..i];
      EarlierDrawsKept(init, i, wrap);
      var k := Classify(lines[|lines| - 1]);
      var before := Render(init, wrap);
      assert Render(lines, wrap).draws
          == before.draws + Column(before.cursor.page, before.cursor.y, Style(k), SubLines(k, wrap));
    } else {
      assert lines[..i] == lines;
    }
  }

  /** The layout of the first i + 1 lines extends that of the first i by line i. */
  lemma RenderNext(lines: seq<string>, i: nat, wrap: Wrap)
    requires i < |lines|
    ensures Render(lines[..i + 1], wrap) == Step(Render(lines[..i], wrap), lines[i], wrap)
  {
    assert lines[..i + 1] == lines[..i] + [lines[i]];
    RenderSnoc(lines[..i], lines[i], wrap);
  }

  // ----- what one line does -----

  /** A "# " line: one unwrapped draw of line[2:] in Helvetica-Bold 16 at the cursor, then the paragraph step. */
  lemma HeadingOneLine(r: Rendering, line: string, wrap: Wrap)
    requires StartsWith(line, "# ")
    ensures var after := Step(r, line, wrap);
            var c := r.cursor;
            && after.draws == r.draws + [Draw(c.page, 50, c.y, Font("Helvetica-Bold", 16), line[2..])]
            && after.cursor == (if c.y - 20 < 50 then Cursor(c.page + 1, 750) else Cursor(c.page, c.y - 20))
  {
    assert Classify(line) == HeadingOne(line[2..]);
  }

  /** A "## " line: one unwrapped draw of line[3:] in Helvetica-Bold 14 at the cursor, then the paragraph step. */
  lemma HeadingTwoLine(r: Rendering, line: string, wrap: Wrap)
    requires StartsWith(line, "## ")
    ensures var after := Step(r, line, wrap);
            var c := r.cursor;
            && after.draws == r.draws + [Draw(c.page, 50, c.y, Font("Helvetica-Bold", 14), line[3..])]
            && after.cursor == (if c.y - 20 < 50 then Cursor(c.page + 1, 750) else Cursor(c.page, c.y - 20))
  {
    assert Classify(line) == HeadingTwo(line[3..]);
  }

  /** A bullet line as one column of wrapped pieces at the cursor, with no paragraph step. */
  lemma StepBullet(r: Rendering, line: string, wrap: Wrap)
    requires StartsWith(line, "- ")
    ensures var pieces := wrap(BulletPrefix + line[2..], "Helvetica", 12, 500);
            Step(r, line, wrap)
              == Rendering(r.draws + Column(r.cursor.page, r.cursor.y, Regular, pieces),
                           Cursor(r.cursor.page, r.cursor.y - 20 * |pieces|))
  {
    assert Classify(line) == Bullet(line[2..]);
  }

  /** A body line as one column of wrapped pieces at the cursor, then the paragraph step. */
  lemma StepBody(r: Rendering, line: string, wrap: Wrap)
    requires !StartsWith(line, "# ") && !StartsWith(line, "## ") && !StartsWith(line, "- ")
    ensures var pieces := wrap(line, "Helvetica", 12, 500);
            Step(r, line, wrap)
              == Rendering(r.draws + Column(r.cursor.page, r.cursor.y, Regular, pieces),
                           ParagraphBreak(r.cursor.page, r.cursor.y - 20 * |pieces|))
  {
    assert Classify(line) == Body(line);
  }

  /**
   * A "- " line: the wrapped pieces of the bullet text drawn at y, y - 20, ...
   * in Helvetica 12; the cursor ends 20 per piece lower, on the same page.
   */
  lemma BulletLine(r: Rendering, line: string, wrap: Wrap)
    requires StartsWith(line, "- ")
    ensures var after := Step(r, line, wrap);
            var c := r.cursor;
            var pieces := wrap(BulletPrefix + line[2..], "Helvetica", 12, 500);
            && |after.draws| == |r.draws| + |pieces|
            && after.draws[..|r.draws|] == r.draws
            && (forall i :: 0 <= i < |pieces| ==>
                  after.draws[|r.draws| + i] == Draw(c.page, 50, c.y - 20 * i, Font("Helvetica", 12), pieces[i]))
            && after.cursor == Cursor(c.page, c.y - 20 * |pieces|)
  {
    var k := Classify(line);
    assert k == Bullet(line[2..]);
    var col := Column(r.cursor.page, r.cursor.y, Regular, SubLines(k, wrap));
    assert Step(r, line, wrap).draws == r.draws + col;
  }

  /**
   * A body line: its wrapped pieces drawn at y, y - 20, ... in Helvetica 12;
   * the cursor then drops 20 per piece plus 20, and a new page starts if it
   * is below 50.
   */
  lemma BodyLine(r: Rendering, line: string, wrap: Wrap)
    requires !StartsWith(line, "# ") && !StartsWith(line, "## ") && !StartsWith(line, "- ")
    ensures var after := Step(r, line, wrap);
            var c := r.cursor;
            var pieces := wrap(line, "Helvetica", 12, 500);
            var y := c.y - 20 * (|pieces| + 1);
            && |after.draws| == |r.draws| + |pieces|
            && after.draws[..|r.draws|] == r.draws
            && (forall i :: 0 <= i < |pieces| ==>
                  after.draws[|r.draws| + i] == Draw(c.page, 50, c.y - 20 * i, Font("Helvetica", 12), pieces[i]))
            && after.cursor == (if y < 50 then Cursor(c.page + 1, 750) else Cursor(c.page, y))
  {
    var k := Classify(line);
    assert k == Body(line);
    var n := |SubLines(k, wrap)|;
    var col := Column(r.cursor.page, r.cursor.y, Regular, SubLines(k, wrap));
    assert Step(r, line, wrap).draws == r.draws + col;
    assert Step(r, line, wrap).cursor == ParagraphBreak(r.cursor.page, r.cursor.y - LineHeight * n);
    assert r.cursor.y - LineHeight * n - LineHeight == r.cursor.y - 20 * (n + 1);
  }

  // ----- content: nothing dropped, duplicated or reordered -----

  /** The (font, text) pairs a line contributes, decided by the line alone. */
  function Pieces(k: LineKind, wrap: Wrap): seq<(Font, string)> {
    match k
    case HeadingOne(t) => [(HeadingOneFont, t)]
    case HeadingTwo(t) => [(HeadingTwoFont, t)]
    case Bullet(t) => Styled(Regular, Wrapped(wrap, BulletPrefix + t))
    case Body(t) => Styled(Regular, Wrapped(wrap, t))
  }

  function Styled(font: Font, texts: seq<string>): seq<(Font, string)> {
    seq(|texts|, i requires 0 <= i < |texts| => (font, texts[i]))
  }

  /** The pieces of all lines, in line order: what the document should say, ignoring where. */
  function Source(lines: seq<string>, wrap: Wrap): seq<(Font, string)>
    decreases |lines|
  {
    if lines == [] then []
    else Source(lines[..|lines| - 1], wrap) + Pieces(Classify(lines[|lines| - 1]), wrap)
  }

  /** What the draws say, ignoring where. */
  function Content(ds: seq<Draw>): seq<(Font, string)> {
    seq(|ds|, i requires 0 <= i < |ds| => (ds[i].font, ds[i].text))
  }

  lemma ContentAppend(a: seq<Draw>, b: seq<Draw>)
    ensures Content(a + b) == Content(a) + Content(b)
  {
  }

  lemma ColumnContent(k: LineKind, c: Cursor, wrap: Wrap)
    ensures Content(Column(c.page, c.y, Style(k), SubLines(k, wrap))) == Pieces(k, wrap)
  {
  }

  /**
   * The draws, read in order as (font, text), are exactly the lines' pieces
   * in line order: every heading's stripped text and every element of every
   * wrap result appears once, in the font its branch sets, whatever the
   * page breaks do.
   */
  lemma {:induction false} ContentPreserved(lines: seq<string>, wrap: Wrap)
    ensures Content(Render(lines, wrap).draws) == Source(lines, wrap)
    decreases |lines|
  {
    if lines != [] {
      var init := lines[..|lines| - 1];
      var k := Classify(lines[|lines| - 1]);
      var before := Render(init, wrap);
      ContentPreserved(init, wrap);
      ContentAppend(before.draws, Column(before.cursor.page, before.cursor.y, Style(k), SubLines(k, wrap)));
      ColumnContent(k, before.cursor, wrap);
    }
  }

  /** How many strings a line is drawn as: one per heading, one per wrap element otherwise. */
  function LineDrawCount(line: string, wrap: Wrap): nat {
    if StartsWith(line, "# ") || StartsWith(line, "## ") then 1
    else if StartsWith(line, "- ") then |wrap(BulletPrefix + line[2..], "Helvetica", 12, 500)|
    else |wrap(line, "Helvetica", 12, 500)|
  }

  function DrawCount(lines: seq<string>, wrap: Wrap): nat
    decreases |lines|
  {
    if lines == [] then 0
    else DrawCount(lines[..|lines| - 1], wrap) + LineDrawCount(lines[|lines| - 1], wrap)
  }

  /** The number of draws is the number of headings plus the total length of the wrap results. */
  lemma {:induction false} DrawTotal(lines: seq<string>, wrap: Wrap)
    ensures |Render(lines, wrap).draws| == DrawCount(lines, wrap)
    decreases |lines|
  {
    if lines != [] {
      DrawTotal(lines[..|lines| - 1], wrap);
    }
  }

  // ----- positions -----

  /** `d` lies on an earlier page than `c`, or higher on the same page. */
  predicate Above(d: Draw, c: Cursor) {
    d.page < c.page || (d.page == c.page && d.y > c.y)
  }

  /** `d` is drawn before `e` in reading order: earlier page, or higher on the same page. */
  predicate Precedes(d: Draw, e: Draw) {
    d.page < e.page || (d.page == e.page && d.y > e.y)
  }

  /** Every draw is at x = 50, no higher than 750, and above the cursor `c`. */
  predicate Placed(ds: seq<Draw>, c: Cursor) {
    forall i :: 0 <= i < |ds| ==> ds[i].x == 50 && ds[i].y <= 750 && Above(ds[i], c)
  }

  /** Within a page each draw is strictly lower than the one before, and pages never go back. */
  predicate InReadingOrder(ds: seq<Draw>) {
    forall i, j :: 0 <= i < j < |ds| ==> Precedes(ds[i], ds[j])
  }

  /** The cursor never rises above Top. */
  lemma {:induction false} CursorBelowTop(lines: seq<string>, wrap: Wrap)
    ensures Render(lines, wrap).cursor.y <= Top
    decreases |lines|
  {
    if lines != [] {
      CursorBelowTop(lines[..|lines| - 1], wrap);
    }
  }

  /**
   * Every draw is at x = 50, no higher than 750, and above the cursor: the
   * cursor has moved past everything drawn so far.
   */
  lemma {:induction false} DrawsAboveCursor(lines: seq<string>, wrap: Wrap)
    ensures Placed(Render(lines, wrap).draws, Render(lines, wrap).cursor)
    decreases |lines|
  {
    if lines != [] {
      var init := lines[..|lines| - 1];
      DrawsAboveCursor(init, wrap);
      CursorBelowTop(init, wrap);
    }
  }

  /**
   * Draws come out in reading order: within a page each is strictly lower
   * than the one before, and y only goes back up on a later page.
   */
  lemma {:induction false} DrawsInReadingOrder(lines: seq<string>, wrap: Wrap)
    ensures InReadingOrder(Render(lines, wrap).draws)
    decreases |lines|
  {
    if lines != [] {
      var init := lines[..|lines| - 1];
      var before := Render(init, wrap);
      var k := Classify(lines[|lines| - 1]);
      var col := Column(before.cursor.page, before.cursor.y, Style(k), SubLines(k, wrap));
      DrawsInReadingOrder(init, wrap);
      DrawsAboveCursor(init, wrap);
      var ds := before.draws + col;
      assert Render(lines, wrap).draws == ds;
      var n := |before.draws|;
      var c := before.cursor;
      assert Placed(before.draws, c);
      assert InReadingOrder(before.draws);
      forall i, j | 0 <= i < j < |ds| ensures Precedes(ds[i], ds[j]) {
        if j < n {
          assert ds[i] == before.draws[i] && ds[j] == before.draws[j];
        } else if i < n {
          assert ds[i] == before.draws[i];
          assert Above(before.draws[i], c);
          assert ds[j] == col[j - n];
          assert col[j - n].page == c.page && col[j - n].y <= c.y;
        } else {
          assert ds[i] == col[i - n] && ds[j] == col[j - n];
          assert col[i - n].y == c.y - LineHeight * (i - n);
          assert col[j - n].y == c.y - LineHeight * (j - n);
        }
      }
    }
  }

  // ----- pagination -----

  /**
   * After a non-bullet line the cursor is between 50 and 750.
   */
  lemma CursorAfterParagraph(lines: seq<string>, line: string, wrap: Wrap)
    requires !StartsWith(line, "- ")
    ensures 50 <= Render(lines + [line], wrap).cursor.y <= 750
  {
    RenderSnoc(lines, line, wrap);
    CursorBelowTop(lines + [line], wrap);
    var c := Render(lines, wrap).cursor;
    var k := Classify(line);
    assert !k.Bullet?;
    assert Render(lines + [line], wrap).cursor == Advance(k, c, wrap);
  }

  /**
   * A line moves to a new page at most once, only if it is not a bullet,
   * and the cursor then restarts at 750.
   */
  lemma PageAdvance(lines: seq<string>, line: string, wrap: Wrap)
    ensures var before := Render(lines, wrap).cursor;
            var after := Render(lines + [line], wrap).cursor;
            || after.page == before.page
            || (after.page == before.page + 1 && after.y == 750 && !StartsWith(line, "- "))
  {
    RenderSnoc(lines, line, wrap);
  }

  function NonBulletCount(lines: seq<string>): nat
    decreases |lines|
  {
    if lines == [] then 0
    else NonBulletCount(lines[..|lines| - 1]) + (if StartsWith(lines[|lines| - 1], "- ") then 0 else 1)
  }

  /** Bullets never start a page: page breaks are bounded by the non-bullet lines. */
  lemma {:induction false} PagesBounded(lines: seq<string>, wrap: Wrap)
    ensures Render(lines, wrap).cursor.page <= NonBulletCount(lines)
    decreases |lines|
  {
    if lines != [] {
      var init := lines[..|lines| - 1];
      PagesBounded(init, wrap);
      PageAdvance(init, lines[|lines| - 1], wrap);
      assert init + [lines[|lines| - 1]] == lines;
    }
  }

  // ----- examples -----

  /** Empty input: if simpleSplit("") is empty, nothing is drawn and the only page is the first. */
  lemma EmptyText(wrap: Wrap)
    requires wrap("", "Helvetica", 12, 500) == []
    ensures Render(Split(""), wrap) == Rendering([], Cursor(0, 730))
  {
    assert Split("") == [] + [""];
    RenderSnoc([], "", wrap);
    BodyLine(Start, "", wrap);
  }

  /** A document that is one "# " line is a single bold-16 draw of its title at the top of the first page. */
  lemma TitleOnly(line: string, wrap: Wrap)
    requires StartsWith(line, "# ") && Newline !in line
    ensures Render(Split(line), wrap).draws == [Draw(0, 50, 750, Font("Helvetica-Bold", 16), line[2..])]
  {
    SplitSingle(line);
    assert [] + [line] == [line];
    RenderSnoc([], line, wrap);
    HeadingOneLine(Start, line, wrap);
  }

  /**
   * A bullet that wraps to one piece, followed by a heading, at the top of a
   * document: the heading is drawn 20 below the bullet, not 40, because
   * bullets skip the paragraph step.
   */
  lemma BulletThenHeading(bullet: string, heading: string, wrap: Wrap)
    requires StartsWith(bullet, "- ") && StartsWith(heading, "# ")
    requires Newline !in bullet && Newline !in heading
    requires |wrap(BulletPrefix + bullet[2..], "Helvetica", 12, 500)| == 1
    ensures var ds := Render(Split(bullet + "\n" + heading), wrap).draws;
            |ds| == 2 && ds[0].y == 750 && ds[1].y == 730 && ds[1].text == heading[2..]
  {
    assert Split(bullet + "\n" + heading) == [bullet] + [heading] by {
      SplitSingle(heading);
      SplitAfterLine(bullet, heading);
    }
    var first := Render([bullet], wrap);
    assert |first.draws| == 1 && first.draws[0].y == 750 && first.cursor == Cursor(0, 730) by {
      assert [] + [bullet] == [bullet];
      RenderSnoc([], bullet, wrap);
      BulletLine(Start, bullet, wrap);
    }
    RenderSnoc([bullet], heading, wrap);
    HeadingOneLine(first, heading, wrap);
  }
}
