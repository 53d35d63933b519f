/**
 * The Markdown-lite dialect of generate_pdf: every input line is a level-one
 * heading ("# "), a level-two heading ("## "), a bullet ("- ") or body text,
 * decided by testing the prefixes in that order.
 */
module Markdown {
  import opened Lines

  /** A classified line, holding the text that remains once the prefix is stripped. */
  datatype LineKind =
    | HeadingOne(title: string)
    | HeadingTwo(title: string)
    | Bullet(item: string)
    | Body(text: string)

  /**
   * The if/elif chain of generate_pdf. A "## " line never takes the "# "
   * branch, because its second character is '#'; a "- " line is neither
   * heading; everything else is body text, kept whole.
   */
  function Classify(line: string): (k: LineKind)
    ensures k.HeadingOne? <==> StartsWith(line, "# ")
    ensures k.HeadingTwo? <==> StartsWith(line, "## ")
    ensures k.Bullet? <==> StartsWith(line, "- ")
    ensures Unclassify(k) == line
  {
    if StartsWith(line, "# ") then
      assert line[1] == line[..2][1] == ' ';
      HeadingOne(line[2..])
    else if StartsWith(line, "## ") then HeadingTwo(line[3..])
    else if StartsWith(line, "- ") then Bullet(line[2..])
    else Body(line)
  }

  /** Puts the stripped prefix back. */
  function Unclassify(k: LineKind): string {
    match k
    case HeadingOne(t) => "# " + t
    case HeadingTwo(t) => "## " + t
    case Bullet(t) => "- " + t
    case Body(t) => t
  }
}
