/** The `amazon_review_scraper` class: construction with the end-page clamp, `total_pages`,
    `request_wrapper`, `page_scraper` and `scrape`, over a browser and a CSV writer. */
module Scraper {
  import opened Wrappers
  import opened Errors
  import opened Text
  import opened Request
  import opened Pager
  import opened Fields
  import opened Pages

  /** The browser session: the page each URL renders to, and the URLs it was asked to load. */
  class Browser {
    const content: string -> string
    var requested: seq<string>

    constructor (content: string -> string)
      ensures this.content == content && requested == []
    {
      this.content := content;
      requested := [];
    }

    /** `browser.get(url)` followed by `browser.page_source`. */
    method Load(url: string) returns (html: string)
      modifies this
      ensures requested == old(requested) + [url]
      ensures html == content(url)
    {
      requested := requested + [url];
      html := content(url);
    }
  }

  /** A `csv.DictWriter` on one output file: the rows written so far, after the header. */
  class CsvWriter {
    const fileName: string
    const fieldnames: seq<string>
    var rows: seq<Review>

    constructor (fileName: string, fieldnames: seq<string>)
      ensures this.fileName == fileName && this.fieldnames == fieldnames && rows == []
    {
      this.fileName := fileName;
      this.fieldnames := fieldnames;
      rows := [];
    }

    /** `writer.writerow(row)`: refused, writing nothing, when the row has keys outside the columns. */
    method WriteRow(row: Review) returns (err: Option<ScrapeError>)
      modifies this
      ensures err == RowCheck(row, fieldnames)
      ensures rows == if err.None? then old(rows) + [row] else old(rows)
    {
      err := RowCheck(row, fieldnames);
      if err.None? {
        rows := rows + [row];
      }
    }
  }

  /** The URLs of a sequence of pages. */
  function Urls(template: string, pages: seq<int>): (r: seq<string>)
    ensures |r| == |pages| && forall k :: 0 <= k < |pages| ==> r[k] == PageUrl(template, pages[k])
    decreases |pages|
  {
    if pages == [] then [] else [PageUrl(template, pages[0])] + Urls(template, pages[1..])
  }

  /** A scrape over a list of pages: the rows written, the pages fetched, and the error that
      stopped it, if any. */
  datatype Run = Run(rows: seq<Review>, visited: seq<int>, error: Option<ScrapeError>)

  /** What one page of a scrape gives: the page fetched from its URL, then the extraction and the
      review loop. */
  function PageOf(template: string, content: string -> string, libs: Libraries): int -> PageResult {
    page => PageOutcome(content(PageUrl(template, page)), PageUrl(template, page), libs)
  }

  /** What `scrape` does over `pages`, with `outcome` giving each page's result: each page in turn,
      stopping at the first page that fails. */
  function RunPages(pages: seq<int>, outcome: int -> PageResult): Run
    decreases |pages|
  {
    if pages == [] then Run([], [], None)
    else
      var page := outcome(pages[0]);
      if page.error.Some? then Run(page.rows, [pages[0]], page.error)
      else
        var rest := RunPages(pages[1..], outcome);
        Run(page.rows + rest.rows, [pages[0]] + rest.visited, rest.error)
  }

  /** A scrape fetches a prefix of its pages in order: all of them when nothing fails, and up to
      and including the failing page otherwise. It ends without error exactly when no page of the
      range fails. */
  lemma {:induction false} RunPrefix(pages: seq<int>, outcome: int -> PageResult)
    ensures var run := RunPages(pages, outcome);
      |run.visited| <= |pages| && run.visited == pages[..|run.visited|] &&
      (run.error.None? ==> run.visited == pages) &&
      (run.error.Some? ==> |run.visited| > 0) &&
      (run.error.None? <==> forall k :: 0 <= k < |pages| ==> outcome(pages[k]).error.None?)
    decreases |pages|
  {
    if pages != [] && outcome(pages[0]).error.None? {
      RunPrefix(pages[1..], outcome);
      var rest := RunPages(pages[1..], outcome);
      assert pages[..1 + |rest.visited|] == [pages[0]] + pages[1..][..|rest.visited|];
      assert forall k :: 0 < k < |pages| ==> pages[k] == pages[1..][k - 1];
    }
  }

  /** The rows of a scrape are the rows of its fetched pages, one page after the other, and its
      error is the error of the last page fetched, whether that page failed or not. */
  lemma {:induction false} RunRows(pages: seq<int>, outcome: int -> PageResult)
    ensures var run := RunPages(pages, outcome);
      run.rows == RowsOf(run.visited, outcome) &&
      (|run.visited| > 0 ==> run.error == outcome(Last(run.visited)).error) &&
      (forall k :: 0 <= k < |run.visited| - 1 ==> outcome(run.visited[k]).error.None?)
    decreases |pages|
  {
    if pages != [] && outcome(pages[0]).error.None? {
      RunRows(pages[1..], outcome);
      RunPrefix(pages[1..], outcome);
      var run := RunPages(pages, outcome);
      var rest := RunPages(pages[1..], outcome);
      assert run.visited[1..] == rest.visited;
      if |rest.visited| > 0 {
        assert Last(run.visited) == Last(rest.visited);
      }
    }
  }

  /** The rows of a sequence of pages, concatenated in order. */
  function RowsOf(pages: seq<int>, outcome: int -> PageResult): seq<Review>
    decreases |pages|
  {
    if pages == [] then [] else outcome(pages[0]).rows + RowsOf(pages[1..], outcome)
  }

  /** One step of a scrape: the first page of the range, then the rest unless that page failed. */
  lemma RunStep(page: int, end: int, outcome: int -> PageResult)
    requires page <= end
    ensures var run := RunPages(PageRange(page, end), outcome);
      var rest := RunPages(PageRange(page + 1, end), outcome);
      (outcome(page).error.Some? ==> run == Run(outcome(page).rows, [page], outcome(page).error)) &&
      (outcome(page).error.None? ==> run == Run(outcome(page).rows + rest.rows, [page] + rest.visited, rest.error))
  {
    assert PageRange(page, end)[1..] == PageRange(page + 1, end);
  }

  /** The state of a scrape that has reached `page`: the rows written and the URLs requested so
      far, followed by what the rest of the range gives, make up the whole run. */
  predicate Resumes(rows: seq<Review>, requested: seq<string>, page: int, end: int, outcome: int -> PageResult,
                    template: string, all: Run, requestedBefore: seq<string>) {
    var left := RunPages(PageRange(page, end), outcome);
    rows + left.rows == all.rows && left.error == all.error &&
    requested + Urls(template, left.visited) == requestedBefore + Urls(template, all.visited)
  }

  /** Fetching `page` and writing its rows either ends the run there, on an error, or reaches the
      next page. */
  lemma ResumesStep(rows: seq<Review>, requested: seq<string>, page: int, end: int, outcome: int -> PageResult,
                    template: string, all: Run, requestedBefore: seq<string>)
    requires page <= end && Resumes(rows, requested, page, end, outcome, template, all, requestedBefore)
    ensures var here := outcome(page); var requestedNow := requested + [PageUrl(template, page)];
      (here.error.Some? ==>
        rows + here.rows == all.rows && here.error == all.error &&
        requestedNow == requestedBefore + Urls(template, all.visited)) &&
      (here.error.None? ==> Resumes(rows + here.rows, requestedNow, page + 1, end, outcome, template, all, requestedBefore))
  {
    RunStep(page, end, outcome);
    var rest := RunPages(PageRange(page + 1, end), outcome);
    var here := outcome(page);
    UrlsCons(template, page, rest.visited);
    assert Urls(template, [page]) == [PageUrl(template, page)];
    if here.error.None? {
      ConcatAssoc(rows, here.rows, rest.rows);
      ConcatAssoc(requested, [PageUrl(template, page)], Urls(template, rest.visited));
    }
  }

  /** Past the end page, what was written is the whole run. */
  lemma ResumesDone(rows: seq<Review>, requested: seq<string>, page: int, end: int, outcome: int -> PageResult,
                    template: string, all: Run, requestedBefore: seq<string>)
    requires end < page && Resumes(rows, requested, page, end, outcome, template, all, requestedBefore)
    ensures rows == all.rows && all.error.None? && requested == requestedBefore + Urls(template, all.visited)
  {
    assert PageRange(page, end) == [];
    assert rows + [] == rows && requested + [] == requested;
  }

  lemma UrlsCons(template: string, page: int, pages: seq<int>)
    ensures Urls(template, [page] + pages) == [PageUrl(template, page)] + Urls(template, pages)
  {
    assert ([page] + pages)[1..] == pages;
  }

  /** The pages a scrape from `start` to `end` fetches are `start`, `start + 1`, ... in this order,
      each once: all of them up to `end` when nothing fails, none when `end < start`. */
  lemma PagesVisited(start: int, end: int, outcome: int -> PageResult)
    ensures var run := RunPages(PageRange(start, end), outcome);
      (forall k :: 0 <= k < |run.visited| ==> run.visited[k] == start + k) &&
      (end < start ==> run == Run([], [], None)) &&
      (run.error.None? ==> |run.visited| == if end < start then 0 else end - start + 1)
  {
    PageRangeSpec(start, end);
    RunPrefix(PageRange(start, end), outcome);
  }

  class ReviewScraper {
    const productAsin: string
    const url: string
    const sleepTime: int
    const startPage: int
    var endPage: int

    /** The fields `__init__` sets before it asks for the page total. */
    constructor (site: string, asin: string, sleepTime: int, startPage: int)
      ensures productAsin == asin && url == UrlTemplate(site, asin)
      ensures this.sleepTime == sleepTime && this.startPage == startPage
    {
      productAsin := asin;
      url := UrlTemplate(site, asin);
      this.sleepTime := sleepTime;
      this.startPage := startPage;
    }

    /** `request_wrapper`: load the page and refuse the CAPTCHA wall. */
    method RequestWrapper(pageUrl: string, browser: Browser) returns (r: Result<string, ScrapeError>)
      modifies browser
      ensures browser.requested == old(browser.requested) + [pageUrl]
      ensures r == CheckPage(browser.content(pageUrl))
    {
      var html := browser.Load(pageUrl);
      r := CheckPage(html);
    }

    /** `total_pages`: fetch page 1 and read the page total off its review-count label. */
    method TotalPages(browser: Browser, libs: Libraries) returns (r: Result<int, ScrapeError>)
      modifies browser
      ensures browser.requested == old(browser.requested) + [PageUrl(url, 1)]
      ensures r == TotalPagesOf(browser.content(PageUrl(url, 1)), libs.countLabel)
    {
      var html :- RequestWrapper(PageUrl(url, 1), browser);
      var labelText := libs.countLabel(html);
      if labelText.None? {
        return Failure(LayoutMismatch);
      }
      r := TotalFromLabel(labelText.value);
    }

    /** `page_scraper`: fetch one page and write a row for each of its non-None reviews. */
    method PageScraper(page: int, writer: CsvWriter, browser: Browser, libs: Libraries) returns (err: Option<ScrapeError>)
      requires writer.fieldnames == Columns
      modifies writer, browser
      ensures browser.requested == old(browser.requested) + [PageUrl(url, page)]
      ensures var outcome := PageOutcome(browser.content(PageUrl(url, page)), PageUrl(url, page), libs);
        writer.rows == old(writer.rows) + outcome.rows && err == outcome.error
    {
      var pageUrl := PageUrl(url, page);
      var fetched := RequestWrapper(pageUrl, browser);
      if fetched.Failure? {
        return Some(fetched.error);
      }
      var data := libs.extract(fetched.value);
      if data.None? {
        return None;
      }
      if data.value.reviews.None? {
        return Some(NotIterable);
      }
      var reviews := data.value.reviews.value;
      var product := data.value.productTitle;
      ghost var whole := ReviewRows(reviews, product, pageUrl, None, libs.formatDate);
      var datePosted: Option<string> := None;
      var k := 0;
      while k < |reviews|
        modifies writer
        invariant 0 <= k <= |reviews|
        invariant var left := ReviewRows(reviews[k..], product, pageUrl, datePosted, libs.formatDate);
          writer.rows + left.rows == old(writer.rows) + whole.rows && left.error == whole.error
      {
        ReviewRowsAt(reviews, k, product, pageUrl, datePosted, libs.formatDate);
        ghost var rowsBefore := writer.rows;
        var entry := reviews[k];
        if entry.Some? {
          var normalized := NormalizeReview(entry.value, product, pageUrl, datePosted, libs.formatDate);
          if normalized.Failure? {
            return Some(normalized.error);
          }
          err := writer.WriteRow(normalized.value.row);
          if err.Some? {
            return err;
          }
          ConcatAssoc(rowsBefore, [normalized.value.row],
            ReviewRows(reviews[k + 1..], product, pageUrl, Some(normalized.value.datePosted), libs.formatDate).rows);
          datePosted := Some(normalized.value.datePosted);
        }
        k := k + 1;
      }
      return None;
    }

    /** `scrape`: open the product's CSV file and scrape the pages from the start page to the end page,
        stopping at the first error. */
    method Scrape(browser: Browser, libs: Libraries) returns (err: Option<ScrapeError>, writer: CsvWriter)
      modifies browser
      ensures fresh(writer) && writer.fileName == productAsin + ".csv" && writer.fieldnames == Columns
      ensures var run := RunPages(PageRange(startPage, endPage), PageOf(url, browser.content, libs));
        writer.rows == run.rows && err == run.error &&
        browser.requested == old(browser.requested) + Urls(url, run.visited)
    {
      writer := new CsvWriter(productAsin + ".csv", Columns);
      ghost var outcomeOf := PageOf(url, browser.content, libs);
      ghost var all := RunPages(PageRange(startPage, endPage), outcomeOf);
      assert [] + all.rows == all.rows;
      var page := startPage;
      err := None;
      while page <= endPage
        invariant writer.fileName == productAsin + ".csv" && writer.fieldnames == Columns
        invariant outcomeOf == PageOf(url, browser.content, libs)
        invariant Resumes(writer.rows, browser.requested, page, endPage, outcomeOf, url, all, old(browser.requested))
        invariant err.None?
        decreases endPage - page
      {
        ResumesStep(writer.rows, browser.requested, page, endPage, outcomeOf, url, all, old(browser.requested));
        assert outcomeOf(page) == PageOutcome(browser.content(PageUrl(url, page)), PageUrl(url, page), libs);
        err := PageScraper(page, writer, browser, libs);
        if err.Some? {
          return;
        }
        page := page + 1;
      }
      ResumesDone(writer.rows, browser.requested, page, endPage, outcomeOf, url, all, old(browser.requested));
    }
  }

  /** `amazon_review_scraper(...)`: set the fields, fetch the page total, and clamp the end page. */
  method Create(site: string, asin: string, sleepTime: int, startPage: int, endPage: Option<int>,
                browser: Browser, libs: Libraries) returns (r: Result<ReviewScraper, ScrapeError>)
    modifies browser
    ensures browser.requested == old(browser.requested) + [PageUrl(UrlTemplate(site, asin), 1)]
    ensures var total := TotalPagesOf(browser.content(PageUrl(UrlTemplate(site, asin), 1)), libs.countLabel);
      (r.Failure? <==> total.Failure?) && (r.Failure? ==> r.error == total.error) &&
      (r.Success? ==>
        fresh(r.value) && r.value.productAsin == asin && r.value.url == UrlTemplate(site, asin) &&
        r.value.sleepTime == sleepTime && r.value.startPage == startPage &&
        r.value.endPage == EffectiveEndPage(endPage, total.value))
  {
    var scraper := new ReviewScraper(site, asin, sleepTime, startPage);
    var total := scraper.TotalPages(browser, libs);
    if total.Failure? {
      return Failure(total.error);
    }
    scraper.endPage := EffectiveEndPage(endPage, total.value);
    r := Success(scraper);
  }
}
