/** Turning the pages of an uploaded PDF into the text that later travels with
    each request. The PDF library itself (loading the document, fetching each
    page, reading its text items) is outside the model: its output is given as
    the sequence of pages, each page the sequence of its text items' strings. */
module PdfExtract {
  import opened JsString

  /** What the page loop has accumulated after the given pages: each page's
      fragments joined with a single space, each page followed by a line
      break. */
  function PagesText(pages: seq<seq<string>>): string {
    if pages == [] then ""
    else PagesText(pages[..|pages| - 1]) + Join(pages[|pages| - 1], " ") + "\n"
  }

  /** The text of an upload: the accumulated page text, trimmed. */
  function ExtractedText(pages: seq<seq<string>>): string {
    Trim(PagesText(pages))
  }

  /** One line per page: the page's fragments joined with a single space. */
  function PageLines(pages: seq<seq<string>>): seq<string> {
    seq(|pages|, i requires 0 <= i < |pages| => Join(pages[i], " "))
  }

  /** The loop over the pages of the document (`fullText += ...`), followed by
      the final trim. */
  method AssembleText(pages: seq<seq<string>>) returns (text: string)
    ensures text == ExtractedText(pages)
    ensures IsTrimmed(text)
  {
    var fullText := "";
    var pageNum := 0;
    while pageNum < |pages|
      invariant 0 <= pageNum <= |pages|
      invariant fullText == PagesText(pages[..pageNum])
    {
      var strings := pages[pageNum];
      assert pages[..pageNum + 1][..pageNum] == pages[..pageNum];
      fullText := fullText + Join(strings, " ") + "\n";
      pageNum := pageNum + 1;
    }
    assert pages[..pageNum] == pages;
    text := Trim(fullText);
  }

  /** The page text of a document is the page text of its first part followed
      by that of the rest: pages contribute independently and in order. */
  lemma {:induction false} PagesTextAppend(a: seq<seq<string>>, b: seq<seq<string>>)
    ensures PagesText(a + b) == PagesText(a) + PagesText(b)
  {
    if b == [] {
      assert a + b == a;
    } else {
      var front := b[..|b| - 1];
      assert (a + b)[..|a + b| - 1] == a + front;
      assert (a + b)[|a + b| - 1] == b[|b| - 1];
      PagesTextAppend(a, front);
    }
  }

  /** For a document with at least one page, the accumulated text is the page
      lines joined with line breaks, plus one trailing line break. */
  lemma {:induction false} PagesTextIsJoinedLines(pages: seq<seq<string>>)
    requires pages != []
    ensures PagesText(pages) == Join(PageLines(pages), "\n") + "\n"
  {
    var front := pages[..|pages| - 1];
    var last := pages[|pages| - 1];
    assert PageLines(pages) == PageLines(front) + [Join(last, " ")];
    if front != [] {
      PagesTextIsJoinedLines(front);
      JoinSnoc(PageLines(front), "\n", Join(last, " "));
    }
  }

  /** The extracted text equals the page lines joined with line breaks and
      trimmed: the break the loop writes after the last page never survives
      the trim. */
  lemma ExtractedTextIsTrimmedJoin(pages: seq<seq<string>>)
    ensures ExtractedText(pages) == Trim(Join(PageLines(pages), "\n"))
  {
    if pages != [] {
      PagesTextIsJoinedLines(pages);
      TrimDropsTrailingWhitespace(Join(PageLines(pages), "\n"), "\n");
    }
  }

  /** Two pages, `a`,`b` on the first and `c` on the second, give `"a b\nc"`. */
  lemma ExtractedTextExample()
    ensures ExtractedText([["a", "b"], ["c"]]) == "a b\nc"
  {
    var line := "a b\nc";
    assert IsTrimmed(line);
    assert AllWhitespace("\n");
    TrimDropsTrailingWhitespace(line, "\n");
    TrimFixpoint(line);
    PagesTextExample();
  }

  lemma PagesTextExample()
    ensures PagesText([["a", "b"], ["c"]]) == "a b\nc" + "\n"
  {
  }
}
