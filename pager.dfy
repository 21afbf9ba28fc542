/** `total_pages`, the end-page clamp of `__init__`, the page range `scrape` walks, and the page URL. */
module Pager {
  import opened Wrappers
  import opened Errors
  import opened Text
  import opened Numbers
  import opened Request

  /** Token index 4 of the stripped label split on single spaces, or None when there are fewer
      than five tokens (the IndexError of the source). */
  function ReviewCountToken(labelText: string): (r: Option<string>)
    ensures r.Some? <==> |Split(Strip(labelText), " ")| > 4
    ensures r.Some? ==> r.value == Split(Strip(labelText), " ")[4]
  {
    var tokens := Split(Strip(labelText), " ");
    if |tokens| > 4 then Some(tokens[4]) else None
  }

  /** The page count announced by the review-count label: the review count, read from the token with
      its commas removed, divided by ten reviews per page and rounded up. */
  function TotalFromLabel(labelText: string): (r: Result<int, ScrapeError>)
    ensures ReviewCountToken(labelText).None? <==> r == Failure(LayoutMismatch)
    ensures r.Success? ==>
      ReviewCountToken(labelText).Some? &&
      var reviews := ParseInt(RemoveChar(ReviewCountToken(labelText).value, ','));
      reviews.Some? && 10 * (r.value - 1) < reviews.value <= 10 * r.value
    ensures r.Failure? && ReviewCountToken(labelText).Some? ==>
      r.error == NotAnInteger(ReviewCountToken(labelText).value) &&
      ParseInt(RemoveChar(ReviewCountToken(labelText).value, ',')).None?
  {
    match ReviewCountToken(labelText)
    case None => Failure(LayoutMismatch)
    case Some(token) =>
      match ParseInt(RemoveChar(token, ','))
      case None => Failure(NotAnInteger(token))
      case Some(reviews) => Success(CeilDiv10(reviews))
  }

  /** A label whose fifth token is a review count, possibly with thousands separators, gives that
      count's page total. */
  lemma TotalOfCount(labelText: string, reviews: int)
    requires ReviewCountToken(labelText).Some?
    requires RemoveChar(ReviewCountToken(labelText).value, ',') == IntToString(reviews)
    ensures TotalFromLabel(labelText) == Success(CeilDiv10(reviews))
  {
    IntRoundTrip(reviews);
  }

  /** A label made of words joined by single spaces, with no space inside a word and no white
      space around the label, has its fifth word as the count word. */
  lemma CountTokenOfWords(words: seq<string>)
    requires |words| > 4
    requires forall k :: 0 <= k < |words| ==> ' ' !in words[k]
    requires words[0] != [] && !IsSpace(words[0][0])
    requires Last(words) != [] && !IsSpace(Last(words)[|Last(words)| - 1])
    ensures ReviewCountToken(Join(words, " ")) == Some(words[4])
  {
    var labelText := Join(words, " ");
    JoinEnds(words, " ");
    assert labelText[0] == labelText[..|words[0]|][0] == words[0][0];
    assert labelText[|labelText| - 1] == labelText[|labelText| - |Last(words)|..][|Last(words)| - 1];
    StripUnchanged(labelText);
    SplitJoinChar(words, ' ');
  }

  /** Such a label whose fifth word is a review count, written with or without thousands
      separators, gives that count's page total. */
  lemma TotalOfWords(words: seq<string>, reviews: int)
    requires |words| > 4
    requires forall k :: 0 <= k < |words| ==> ' ' !in words[k]
    requires words[0] != [] && !IsSpace(words[0][0])
    requires Last(words) != [] && !IsSpace(Last(words)[|Last(words)| - 1])
    requires RemoveChar(words[4], ',') == IntToString(reviews)
    ensures TotalFromLabel(Join(words, " ")) == Success(CeilDiv10(reviews))
  {
    CountTokenOfWords(words);
    TotalOfCount(Join(words, " "), reviews);
  }

  /** The label "5,678 global ratings | 1,234 global reviews" announces 1,234 reviews: 124 pages,
      the last one holding four reviews. */
  lemma TotalOfExampleLabel()
    ensures TotalFromLabel(Join(["5,678", "global", "ratings", "|", "1,234", "global", "reviews"], " ")) == Success(124)
  {
    var words := ["5,678", "global", "ratings", "|", "1,234", "global", "reviews"];
    ExampleWordsSpaceFree(words);
    ExampleCount();
    assert CeilDiv10(1234) == 124;
    TotalOfWords(words, 1234);
  }

  lemma ExampleWordsSpaceFree(words: seq<string>)
    requires words == ["5,678", "global", "ratings", "|", "1,234", "global", "reviews"]
    ensures forall k :: 0 <= k < |words| ==> ' ' !in words[k]
    ensures !IsSpace(words[0][0]) && !IsSpace(Last(words)[|Last(words)| - 1])
  {
  }

  /** "1,234" with its comma removed reads as `str(1234)`. */
  lemma ExampleCount()
    ensures RemoveChar("1,234", ',') == IntToString(1234)
  {
    SeparatorDropped("1", "234");
    assert "1" + "," + "234" == "1,234";
    assert "1" + "234" == "1234";
    PrintedCount();
  }

  /** A thousands separator between two comma-free digit groups is dropped, the groups kept. */
  lemma SeparatorDropped(a: string, b: string)
    requires ',' !in a && ',' !in b
    ensures RemoveChar(a + "," + b, ',') == a + b
  {
    RemoveCharConcat(a, ",", ',');
    RemoveCharAbsent(a, ',');
    assert RemoveChar(",", ',') == [];
    assert RemoveChar(a + ",", ',') == a + [] == a;
    RemoveCharConcat(a + ",", b, ',');
    RemoveCharAbsent(b, ',');
  }

  lemma PrintedCount()
    ensures IntToString(1234) == "1234"
  {
    assert NatToString(1) == "1";
    assert NatToString(12) == "12";
    assert NatToString(123) == "123";
  }

  /** A whole number of pages' worth of reviews needs exactly that many pages. */
  lemma TotalOfWholePages(labelText: string, pages: int)
    requires ReviewCountToken(labelText).Some?
    requires RemoveChar(ReviewCountToken(labelText).value, ',') == IntToString(10 * pages)
    ensures TotalFromLabel(labelText) == Success(pages)
  {
    TotalOfCount(labelText, 10 * pages);
    CeilOfTens(pages);
  }

  /** `total_pages` on the first page's HTML: the CAPTCHA check, the label lookup (None when the
      count element is missing), then the page count. */
  function TotalPagesOf(html: string, countLabel: string -> Option<string>): (r: Result<int, ScrapeError>)
    ensures Contains(html, CaptchaMarker) ==> r == Failure(Captcha)
    ensures !Contains(html, CaptchaMarker) && countLabel(html).None? ==> r == Failure(LayoutMismatch)
    ensures !Contains(html, CaptchaMarker) && countLabel(html).Some? ==> r == TotalFromLabel(countLabel(html).value)
  {
    match CheckPage(html)
    case Failure(e) => Failure(e)
    case Success(page) =>
      match countLabel(page)
      case None => Failure(LayoutMismatch)
      case Some(labelText) => TotalFromLabel(labelText)
  }

  /** The end page `__init__` keeps: the total when none was requested, otherwise the smaller of the
      requested page and the total. */
  function EffectiveEndPage(requested: Option<int>, total: int): (r: int)
    ensures r <= total
    ensures requested.None? ==> r == total
    ensures requested.Some? ==> r <= requested.value && (r == requested.value || r == total)
  {
    match requested
    case None => total
    case Some(end) => if end <= total then end else total
  }

  /** `range(start, end + 1)`: the pages from `start` up to `end`, both included. */
  function PageRange(start: int, end: int): seq<int>
    decreases end - start
  {
    if end < start then [] else [start] + PageRange(start + 1, end)
  }

  /** The range holds every page from `start` to `end` once, in increasing order, and is empty
      when `end < start`. */
  lemma {:induction false} PageRangeSpec(start: int, end: int)
    ensures |PageRange(start, end)| == if end < start then 0 else end - start + 1
    ensures forall k :: 0 <= k < |PageRange(start, end)| ==> PageRange(start, end)[k] == start + k
    decreases end - start
  {
    if start <= end {
      PageRangeSpec(start + 1, end);
      var r := PageRange(start, end);
      assert r == [start] + PageRange(start + 1, end);
      forall k | 0 < k < |r|
        ensures r[k] == start + k
      {
        assert r[k] == PageRange(start + 1, end)[k - 1];
      }
    }
  }

  /** The review-listing address with the page number left open, built in `__init__`. */
  function UrlTemplate(site: string, asin: string): string {
    "https://www." + site + "/dp/product-reviews/" + asin + "?pageNumber="
  }

  /** The address of one page: the template with the page number filled in. */
  function PageUrl(template: string, page: int): (r: string)
    ensures |r| > |template| && r[..|template|] == template
    ensures r == template + IntToString(page)
  {
    template + IntToString(page)
  }

  /** Different pages are fetched from different addresses. */
  lemma PageUrlInjective(template: string, a: int, b: int)
    requires PageUrl(template, a) == PageUrl(template, b)
    ensures a == b
  {
    assert PageUrl(template, a)[|template|..] == IntToString(a);
    assert PageUrl(template, b)[|template|..] == IntToString(b);
    IntToStringInjective(a, b);
  }
}
