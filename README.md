# A verified model of `generate_pdf`

`generate_pdf(text)` in `main.py` turns the Markdown-lite lesson text of the
teaching agent into a PDF. It splits the text on `"\n"` and classifies each
line by prefix, tested in this order:

- `"# "`: a level-one heading, drawn once in Helvetica-Bold 16.
- `"## "`: a level-two heading, drawn once in Helvetica-Bold 14.
- `"- "`: a bullet. Its text, behind a bullet glyph, is wrapped by reportlab's
  `simpleSplit` to 500 points, and each piece is drawn in Helvetica 12.
- Anything else: body text, wrapped and drawn the same way.

Every string is drawn at x = 50. A cursor `y` starts at 750 and drops by 20
after each wrapped piece. After a heading or a body line it drops another 20,
and if it is then below 50 a new page starts at y = 750. A bullet line ends
with `continue`, so it skips both the extra drop and the page-break test.

The model has five modules:

- `Lines` (`lines.dfy`): Python's `str.split("\n")` and `str.startswith`.
- `Markdown` (`markdown.dfy`): the classification of a line.
- `PageLayout` (`layout.dfy`): the layout as a function. `Render(lines, wrap)`
  gives every draw (page, x, y, font, text) and the final cursor. It is built
  line by line with `Step`. The lemmas about it state what each kind of line
  does, that nothing is dropped or reordered, where the strings land and how
  pages advance.
- `Renderer` (`renderer.dfy`): `generate_pdf` itself. It is an imperative
  loop over a `Canvas` class whose page, font and drawn strings change in
  place. It is proved to produce exactly the draws and page count of `Render`.
- `Margins` (`margins.dfy`): the bottom-margin defect listed under Findings,
  and the corrected layout.

`simpleSplit` is the parameter `wrap: (string, string, int, int) -> seq<string>`.
No property of it is assumed: every lemma holds for any wrapping function.
Where a lemma needs a fact about one wrap result, such as "this bullet wraps
to one piece", it says so in its `requires`.

The model follows the code as written where it falls short of its own
comment. The test commented "New page if needed" (`main.py:45`) runs once per
heading or body line, after all of that line's pieces are drawn, and never
for a bullet (`main.py:29-48`). "## Findings" shows the strings this puts
below the page, and `Margins` gives the layout with the test before every
draw.

## Model

| member | source | states |
|---|---|---|
| Lines.Split | main.py:22 | the text splits into at least one line, and no line contains a newline |
| Lines.JoinSplit | main.py:22 | joining the lines back with newlines gives the input text: splitting loses no character |
| Lines.SplitJoin | main.py:22 | lines without newlines, joined and split again, come back unchanged: split inverts join |
| Lines.SplitCount | main.py:22 | there is one line more than the text has newlines, so empty lines are kept |
| Lines.SplitSingle | main.py:22 | text without a newline is a single line |
| Markdown.Classify | main.py:23-38 | a line is a level-one heading iff it starts with "# ", a level-two heading iff it starts with "## ", a bullet iff it starts with "- ", and body text otherwise; putting the stripped prefix back gives the line |
| PageLayout.EarlierDrawsKept | main.py:22-48 | the loop only appends: the draws of the first i lines are a prefix of the draws of all the lines, so a later line never moves or removes an earlier string |
| PageLayout.HeadingOneLine | main.py:23-25 | a "# " line adds exactly one draw of `line[2:]` at (50, y) in Helvetica-Bold 16, unwrapped; then the cursor drops 20 and moves to a new page at 750 if below 50 (lines 43-48) |
| PageLayout.HeadingTwoLine | main.py:26-28 | a "## " line adds exactly one draw of `line[3:]` at (50, y) in Helvetica-Bold 14; then the same drop and page-break test |
| PageLayout.BulletLine | main.py:29-35 | a "- " line adds one draw per piece of wrapping the bullet glyph plus `line[2:]`, the i-th at (50, y - 20i) in Helvetica 12 on the current page; the cursor ends 20 per piece lower on the same page, with no extra drop and no page-break test |
| PageLayout.BodyLine | main.py:36-48 | any other line adds one draw per piece of the wrapped whole line, the i-th at (50, y - 20i) in Helvetica 12; the cursor then drops 20 per piece plus 20, and a new page starts at 750 if it is below 50 |
| PageLayout.ContentPreserved | main.py:22-41 | the draws, read in order as (font, text), are exactly each line's pieces in line order: every heading title and every wrap element appears once, in its branch's font, whatever the page breaks do |
| PageLayout.DrawTotal | main.py:23-41 | the number of draws is one per heading plus the length of every wrap result |
| PageLayout.CursorBelowTop | main.py:19-48 | the cursor never rises above 750 |
| PageLayout.DrawsAboveCursor | main.py:25-41 | every string is drawn at x = 50, no higher than 750, and above the cursor, which has moved past everything drawn |
| PageLayout.DrawsInReadingOrder | main.py:32-48 | draws come out in reading order: on a page each is strictly lower than the one before, and pages never go back |
| PageLayout.CursorAfterParagraph | main.py:43-48 | after a heading or body line the cursor is between 50 and 750 |
| PageLayout.PageAdvance | main.py:43-48 | a line moves to at most one new page, only if it is not a bullet, and the cursor then restarts at 750 |
| PageLayout.PagesBounded | main.py:29-48 | the number of page breaks is at most the number of non-bullet lines |
| PageLayout.EmptyText | main.py:22-48 | for the empty text, if the wrap of "" is empty, nothing is drawn, the document has its one first page, and the cursor ends at 730 |
| PageLayout.TitleOnly | main.py:23-25 | a text that is one "# " line is a single Helvetica-Bold 16 draw of its title at (50, 750) on the first page |
| PageLayout.BulletThenHeading | main.py:29-43 | a one-piece bullet followed by a heading: the heading is drawn at 730, 20 below the bullet rather than 40, because the bullet skips the extra drop |
| Renderer.Canvas.constructor | main.py:16-17 | a new canvas is on its first page in Helvetica 12 with nothing drawn |
| Renderer.Canvas.SetFont | main.py:24 | later strings use the given font; page and drawn strings are unchanged |
| Renderer.Canvas.DrawString | main.py:25 | the string is recorded at (x, y) on the current page in the current font; nothing else changes |
| Renderer.Canvas.ShowPage | main.py:46 | later strings go on the next page; font and drawn strings are unchanged |
| Renderer.Canvas.Save | main.py:50 | the document holds every drawn string, and its pages are those up to and including the current one |
| Renderer.GeneratePdf | main.py:14-52 | the loop draws exactly the strings of `Render(Split(text))`, so every layout lemma holds of its output; the page count is the final cursor's page plus one, and every draw lies on one of the document's pages |
| Renderer.DrawColumn | main.py:32-34 | the inner loop draws the pieces one under another, 20 apart from y, on the current page in the current font, and returns y lowered by 20 per piece |
| Margins.BulletRun | main.py:29-35 | n one-piece bullets at the top of a document stay on the first page at y = 750, 730, ..., however large n is: the cursor is never checked |
| Margins.BulletsRunOffPage | main.py:29-48 | the 39th of a run of one-piece bullets is drawn at y = -10 on the first page, below the bottom edge |
| Margins.BreakIfLow | main.py:45-48 | the page-break test: a new page starts exactly when the cursor is below 50, and then at 750; otherwise the cursor stays where it is; so a cursor at most 750 ends between 50 and 750 |
| Margins.ColumnChecked | main.py:32-34 | with the page-break test before each piece, a column keeps every piece between 50 and 750 |
| Margins.RenderChecked | main.py:43-48 | the corrected layout never draws a string below 50 or above 750 |
| Margins.CheckedContentPreserved | main.py:22-48 | the corrected layout draws the same (font, text) sequence as `generate_pdf`: only positions change |

## Left out

- The Streamlit page, the CrewAI agents and the topic handling around `generate_pdf` are outside this model.
- `simpleSplit` is a parameter with no assumed properties. Its width measurement and word breaking are not modelled.
- The PDF bytes, the `BytesIO` buffer and `buffer.seek(0)` are not modelled. The document is the list of drawn strings and the page count.
- The canvas is reduced to its page index, current font and drawn strings. The letter page size is not modelled because no coordinate depends on it.
- The bullet glyph is the three characters U+00E2 U+20AC U+00A2 and a space, as they appear in the source. These are the UTF-8 bytes of "•" read as Windows-1252. What reportlab then renders for them is not modelled.
- Renderer.Canvas.ShowPage: keeps the font. Whether reportlab resets the font on a new page is not modelled, because `generate_pdf` sets Helvetica 12 right after each `showPage` (`main.py:47`).
- Renderer.Canvas.Save: counts the current page even when nothing is drawn on it. Whether reportlab drops an empty trailing page is not modelled.
- PageLayout.EmptyText: an empty text draws nothing only if `simpleSplit("")` is empty, which the model does not know of `wrap`, so the lemma takes it as a hypothesis.

## Findings

| source | as written | input that shows it | evidently intended | confidence | as-written member | corrected member |
|---|---|---|---|---|---|---|
| main.py:29-48 | the "New page if needed" test runs only after a heading or body line, once all its pieces are drawn, and never after a bullet | 39 bullet lines, each wrapping to one piece, at the start of the text: the 39th is drawn at y = -10 on the first page, below the page edge | the page-break test before every draw, keeping every string between 50 and 750 | high, not executed | Margins.BulletsRunOffPage | Margins.RenderChecked |
