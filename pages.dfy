/** What `page_scraper` writes for one page: the rows of the non-None reviews, in order, until the
    first error. */
module Pages {
  import opened Wrappers
  import opened Errors
  import opened Text
  import opened Request
  import opened Fields

  /** The extractor's result for a page that has data: the product title and the review list,
      which may be None and may hold None entries. */
  datatype Extraction = Extraction(productTitle: Value, reviews: Option<seq<Option<Review>>>)

  /** The library calls the scraper makes, as functions: the review-count label of a page (None when
      the element is missing), the selector-based extraction (None for a falsy result), and the date
      library's parse-and-format of a date phrase (None when it cannot parse it). */
  datatype Libraries = Libraries(
    countLabel: string -> Option<string>,
    extract: string -> Option<Extraction>,
    formatDate: string -> Option<string>)

  /** The CSV columns, in order. */
  const Columns: seq<string> :=
    ["title", "content", "date", "variant", "images", "verified", "author", "rating", "product", "url"]

  /** The CSV writer's check before writing a row: keys outside the columns raise. */
  function RowCheck(row: Review, fieldnames: seq<string>): (r: Option<ScrapeError>)
    ensures r.None? <==> forall k :: k in row ==> k in fieldnames
    ensures r.Some? ==>
      r.value.ExtraFields? && r.value.keys != {} &&
      forall k :: k in r.value.keys <==> k in row && k !in fieldnames
  {
    var extra := set k | k in row && k !in fieldnames;
    assert forall k :: k in row && k !in fieldnames ==> k in extra;
    if extra == {} then None else Some(ExtraFields(extra))
  }

  /** The rows a page writes and the error, if any, that ends it. */
  datatype PageResult = PageResult(rows: seq<Review>, error: Option<ScrapeError>)

  /** The review loop from a given carried date phrase: None entries are skipped, each other review
      is normalised and written, and the first error ends the loop. */
  function ReviewRows(reviews: seq<Option<Review>>, product: Value, url: string, carried: Option<string>,
                      formatDate: string -> Option<string>): PageResult
    decreases |reviews|
  {
    if reviews == [] then PageResult([], None)
    else match reviews[0]
      case None => ReviewRows(reviews[1..], product, url, carried, formatDate)
      case Some(review) =>
        match NormalizeReview(review, product, url, carried, formatDate)
        case Failure(e) => PageResult([], Some(e))
        case Success(n) =>
          match RowCheck(n.row, Columns)
          case Some(e) => PageResult([], Some(e))
          case None =>
            var rest := ReviewRows(reviews[1..], product, url, Some(n.datePosted), formatDate);
            PageResult([n.row] + rest.rows, rest.error)
  }

  /** One iteration of the review loop at position `k`: a None entry is skipped; otherwise the
      review's normalisation or its row check may end the page, and if neither does, its row comes
      first and the loop goes on with the review's date phrase. */
  lemma ReviewRowsAt(reviews: seq<Option<Review>>, k: nat, product: Value, url: string, carried: Option<string>,
                     formatDate: string -> Option<string>)
    requires k < |reviews|
    ensures var here := ReviewRows(reviews[k..], product, url, carried, formatDate);
      (reviews[k].None? ==> here == ReviewRows(reviews[k + 1..], product, url, carried, formatDate)) &&
      (reviews[k].Some? ==>
        var n := NormalizeReview(reviews[k].value, product, url, carried, formatDate);
        (n.Failure? ==> here == PageResult([], Some(n.error))) &&
        (n.Success? && RowCheck(n.value.row, Columns).Some? ==> here == PageResult([], RowCheck(n.value.row, Columns))) &&
        (n.Success? && RowCheck(n.value.row, Columns).None? ==>
          var rest := ReviewRows(reviews[k + 1..], product, url, Some(n.value.datePosted), formatDate);
          here == PageResult([n.value.row] + rest.rows, rest.error)))
  {
    assert reviews[k..][0] == reviews[k];
    assert reviews[k..][1..] == reviews[k + 1..];
  }

  /** What the page's extraction result gives: nothing for a falsy result, an error for a None
      review list, otherwise the review loop starting with no date phrase. */
  function PageRows(data: Option<Extraction>, url: string, formatDate: string -> Option<string>): PageResult {
    match data
    case None => PageResult([], None)
    case Some(extraction) =>
      match extraction.reviews
      case None => PageResult([], Some(NotIterable))
      case Some(reviews) => ReviewRows(reviews, extraction.productTitle, url, None, formatDate)
  }

  /** One whole page: the CAPTCHA check on the fetched HTML, then the extraction and the loop. */
  function PageOutcome(html: string, url: string, libs: Libraries): (r: PageResult)
    ensures Contains(html, CaptchaMarker) ==> r == PageResult([], Some(Captcha))
    ensures libs.extract(html).None? ==> r.rows == []
    ensures !Contains(html, CaptchaMarker) && libs.extract(html).None? ==> r == PageResult([], None)
    ensures !Contains(html, CaptchaMarker) && libs.extract(html).Some? && libs.extract(html).value.reviews.None? ==>
      r == PageResult([], Some(NotIterable))
  {
    match CheckPage(html)
    case Failure(e) => PageResult([], Some(e))
    case Success(page) => PageRows(libs.extract(page), url, libs.formatDate)
  }

  /** The reviews of a list, None entries dropped. */
  function Present(reviews: seq<Option<Review>>): (r: seq<Review>)
    ensures |r| <= |reviews|
    decreases |reviews|
  {
    if reviews == [] then []
    else match reviews[0]
      case None => Present(reviews[1..])
      case Some(review) => [review] + Present(reviews[1..])
  }

  /** The date phrase of the last review in `rs` whose date is a str, or `carried` when none is:
      the phrase `date_posted` holds after those reviews. */
  function LastDatePhrase(carried: Option<string>, rs: seq<Review>): Option<string>
    decreases |rs|
  {
    if rs == [] then carried
    else
      var last := rs[|rs| - 1];
      if "date" in last && last["date"].Str? then Some(DatePhrase(last["date"].text))
      else LastDatePhrase(carried, rs[..|rs| - 1])
  }

  lemma {:induction false} LastDatePhraseCons(carried: Option<string>, review: Review, rs: seq<Review>)
    ensures LastDatePhrase(carried, [review] + rs) == LastDatePhrase(LastDatePhrase(carried, [review]), rs)
    decreases |rs|
  {
    if rs != [] {
      var all, init, last := [review] + rs, rs[..|rs| - 1], rs[|rs| - 1];
      assert all[|all| - 1] == last;
      assert all[..|all| - 1] == [review] + init;
      LastDatePhraseCons(carried, review, init);
      if !("date" in last && last["date"].Str?) {
        assert LastDatePhrase(carried, all) == LastDatePhrase(carried, [review] + init);
        assert LastDatePhrase(LastDatePhrase(carried, [review]), rs) == LastDatePhrase(LastDatePhrase(carried, [review]), init);
      }
    } else {
      assert [review][..0] == [];
    }
  }

  /** `row` is what the loop writes for `review` when `date_posted` holds `carried`: the
      normalised review, which the CSV writer accepts. */
  predicate WrittenAs(row: Review, review: Review, product: Value, url: string, carried: Option<string>,
                      formatDate: string -> Option<string>) {
    var n := NormalizeReview(review, product, url, carried, formatDate);
    n.Success? && n.value.row == row && RowCheck(row, Columns).None?
  }

  /** Rows `rows` are the normalisations of the first reviews of `present`, each dated by the last
      date phrase seen before it. */
  predicate InOrder(rows: seq<Review>, present: seq<Review>, product: Value, url: string, carried: Option<string>,
                    formatDate: string -> Option<string>) {
    |rows| <= |present| &&
    forall i :: 0 <= i < |rows| ==> WrittenAs(rows[i], present[i], product, url, LastDatePhrase(carried, present[..i]), formatDate)
  }

  lemma InOrderCons(row: Review, review: Review, rows: seq<Review>, tail: seq<Review>, product: Value, url: string,
                    carried: Option<string>, next: Option<string>, formatDate: string -> Option<string>)
    requires WrittenAs(row, review, product, url, carried, formatDate)
    requires next == LastDatePhrase(carried, [review])
    requires InOrder(rows, tail, product, url, next, formatDate)
    ensures InOrder([row] + rows, [review] + tail, product, url, carried, formatDate)
  {
    var all := [row] + rows;
    var present := [review] + tail;
    assert present[..0] == [];
    assert LastDatePhrase(carried, present[..0]) == carried;
    assert WrittenAs(all[0], present[0], product, url, carried, formatDate);
    forall i | 0 < i < |all|
      ensures WrittenAs(all[i], present[i], product, url, LastDatePhrase(carried, present[..i]), formatDate)
    {
      assert WrittenAs(rows[i - 1], tail[i - 1], product, url, LastDatePhrase(next, tail[..i - 1]), formatDate);
      InOrderShift(row, review, rows, tail, product, url, carried, next, formatDate, i);
    }
  }

  /** Row `i` of the longer list is row `i - 1` of the shorter one, dated by the same phrase. */
  lemma InOrderShift(row: Review, review: Review, rows: seq<Review>, tail: seq<Review>, product: Value, url: string,
                     carried: Option<string>, next: Option<string>, formatDate: string -> Option<string>, i: int)
    requires next == LastDatePhrase(carried, [review])
    requires 0 < i <= |rows| && i <= |tail|
    requires WrittenAs(rows[i - 1], tail[i - 1], product, url, LastDatePhrase(next, tail[..i - 1]), formatDate)
    ensures var present := [review] + tail;
      WrittenAs(([row] + rows)[i], present[i], product, url, LastDatePhrase(carried, present[..i]), formatDate)
  {
    ConsSlice(review, tail, i);
    ConsSlice(row, rows, i);
    LastDatePhraseCons(carried, review, tail[..i - 1]);
  }

  /** Position `i` and the prefix of length `i` of a list with one more element in front. */
  lemma ConsSlice<T>(x: T, xs: seq<T>, i: int)
    requires 0 < i <= |xs|
    ensures ([x] + xs)[i] == xs[i - 1] && ([x] + xs)[..i] == [x] + xs[..i - 1]
  {
  }

  /** Rows come out in list order, one per non-None review, each the normalisation of its review
      dated by the last date phrase seen before it; the page ends early exactly when an error
      stops it, and then with the error of the first review it did not write. */
  lemma {:induction false} ReviewRowsInOrder(reviews: seq<Option<Review>>, product: Value, url: string,
                                             carried: Option<string>, formatDate: string -> Option<string>)
    ensures var out := ReviewRows(reviews, product, url, carried, formatDate);
      InOrder(out.rows, Present(reviews), product, url, carried, formatDate) &&
      (out.error.None? <==> |out.rows| == |Present(reviews)|) &&
      StoppedBy(out, Present(reviews), product, url, carried, formatDate)
    decreases |reviews|
  {
    ReviewRowsCount(reviews, product, url, carried, formatDate);
    ReviewRowsStop(reviews, product, url, carried, formatDate);
    if reviews != [] {
      match reviews[0]
      case None =>
        ReviewRowsInOrder(reviews[1..], product, url, carried, formatDate);
        assert Present(reviews) == Present(reviews[1..]);
      case Some(review) =>
        var first := NormalizeReview(review, product, url, carried, formatDate);
        if first.Success? && RowCheck(first.value.row, Columns).None? {
          ReviewRowsInOrder(reviews[1..], product, url, Some(first.value.datePosted), formatDate);
          InOrderTake(reviews, review, product, url, carried, formatDate);
        }
    }
  }

  /** The step of the loop that writes the row of the first review keeps the rows in order. */
  lemma InOrderTake(reviews: seq<Option<Review>>, review: Review, product: Value, url: string,
                    carried: Option<string>, formatDate: string -> Option<string>)
    requires reviews != [] && reviews[0] == Some(review)
    requires var first := NormalizeReview(review, product, url, carried, formatDate);
      first.Success? && RowCheck(first.value.row, Columns).None? &&
      var next := Some(first.value.datePosted);
      InOrder(ReviewRows(reviews[1..], product, url, next, formatDate).rows, Present(reviews[1..]), product, url, next, formatDate)
    ensures InOrder(ReviewRows(reviews, product, url, carried, formatDate).rows, Present(reviews), product, url, carried, formatDate)
  {
    var first := NormalizeReview(review, product, url, carried, formatDate);
    var next := Some(first.value.datePosted);
    var rest := ReviewRows(reviews[1..], product, url, next, formatDate);
    assert LastDatePhrase(carried, [review]) == next by {
      assert [review][..0] == [];
    }
    InOrderCons(first.value.row, review, rest.rows, Present(reviews[1..]), product, url, carried, next, formatDate);
    assert ReviewRows(reviews, product, url, carried, formatDate).rows == [first.value.row] + rest.rows;
    assert Present(reviews) == [review] + Present(reviews[1..]);
  }

  /** A page writes at most one row per non-None review, and all of them exactly when no error
      stops it. */
  lemma {:induction false} ReviewRowsCount(reviews: seq<Option<Review>>, product: Value, url: string,
                                           carried: Option<string>, formatDate: string -> Option<string>)
    ensures var out := ReviewRows(reviews, product, url, carried, formatDate);
      |out.rows| <= |Present(reviews)| && (out.error.None? <==> |out.rows| == |Present(reviews)|)
    decreases |reviews|
  {
    if reviews != [] {
      match reviews[0]
      case None =>
        ReviewRowsCount(reviews[1..], product, url, carried, formatDate);
      case Some(review) =>
        assert Present(reviews) == [review] + Present(reviews[1..]);
        var first := NormalizeReview(review, product, url, carried, formatDate);
        if first.Success? && RowCheck(first.value.row, Columns).None? {
          ReviewRowsCount(reviews[1..], product, url, Some(first.value.datePosted), formatDate);
        }
    }
  }

  /** When an error ends the page, it is the error of the first review left unwritten: the
      review after the written ones, normalised with the last date phrase seen before it, either
      fails to normalise or is refused by the row check. */
  predicate StoppedBy(out: PageResult, present: seq<Review>, product: Value, url: string, carried: Option<string>,
                      formatDate: string -> Option<string>) {
    out.error.Some? ==>
      |out.rows| < |present| &&
      FailsWith(out.error, present[|out.rows|], product, url, LastDatePhrase(carried, present[..|out.rows|]), formatDate)
  }

  /** `error` is what the loop raises for `review` when `date_posted` holds `carried`: the
      normalisation's error, or the row check's refusal of the normalised row. */
  predicate FailsWith(error: Option<ScrapeError>, review: Review, product: Value, url: string, carried: Option<string>,
                      formatDate: string -> Option<string>) {
    var n := NormalizeReview(review, product, url, carried, formatDate);
    (n.Failure? && error == Some(n.error)) ||
    (n.Success? && error == RowCheck(n.value.row, Columns))
  }

  /** A page that stops early stops at its first failing review, with that review's error. */
  lemma {:induction false} ReviewRowsStop(reviews: seq<Option<Review>>, product: Value, url: string,
                                          carried: Option<string>, formatDate: string -> Option<string>)
    ensures StoppedBy(ReviewRows(reviews, product, url, carried, formatDate), Present(reviews), product, url, carried, formatDate)
    decreases |reviews|
  {
    if reviews != [] {
      match reviews[0]
      case None =>
        ReviewRowsStop(reviews[1..], product, url, carried, formatDate);
        assert Present(reviews) == Present(reviews[1..]);
      case Some(review) =>
        assert Present(reviews) == [review] + Present(reviews[1..]);
        var first := NormalizeReview(review, product, url, carried, formatDate);
        if first.Failure? || RowCheck(first.value.row, Columns).Some? {
          assert Present(reviews)[..0] == [];
        } else {
          var next := Some(first.value.datePosted);
          ReviewRowsStop(reviews[1..], product, url, next, formatDate);
          StopTake(reviews, review, product, url, carried, formatDate);
        }
    }
  }

  /** The step of `ReviewRowsStop` past a written first review. */
  lemma StopTake(reviews: seq<Option<Review>>, review: Review, product: Value, url: string,
                 carried: Option<string>, formatDate: string -> Option<string>)
    requires reviews != [] && reviews[0] == Some(review)
    requires Present(reviews) == [review] + Present(reviews[1..])
    requires var first := NormalizeReview(review, product, url, carried, formatDate);
      first.Success? && RowCheck(first.value.row, Columns).None? &&
      var next := Some(first.value.datePosted);
      StoppedBy(ReviewRows(reviews[1..], product, url, next, formatDate), Present(reviews[1..]), product, url, next, formatDate)
    ensures StoppedBy(ReviewRows(reviews, product, url, carried, formatDate), Present(reviews), product, url, carried, formatDate)
  {
    var first := NormalizeReview(review, product, url, carried, formatDate);
    var next := Some(first.value.datePosted);
    var rest := ReviewRows(reviews[1..], product, url, next, formatDate);
    assert LastDatePhrase(carried, [review]) == next by {
      assert [review][..0] == [];
    }
    assert ReviewRows(reviews, product, url, carried, formatDate) == PageResult([first.value.row] + rest.rows, rest.error);
    StoppedCons(first.value.row, review, rest, Present(reviews[1..]), product, url, carried, next, formatDate);
  }

  /** Writing one more row in front keeps the stopping point: the same unwritten review, dated by
      the same phrase. */
  lemma StoppedCons(row: Review, review: Review, rest: PageResult, tail: seq<Review>, product: Value, url: string,
                    carried: Option<string>, next: Option<string>, formatDate: string -> Option<string>)
    requires next == LastDatePhrase(carried, [review])
    requires StoppedBy(rest, tail, product, url, next, formatDate)
    ensures StoppedBy(PageResult([row] + rest.rows, rest.error), [review] + tail, product, url, carried, formatDate)
  {
    if rest.error.Some? {
      var i := |rest.rows|;
      var present, rows := [review] + tail, [row] + rest.rows;
      ConsSlice(review, tail, i + 1);
      LastDatePhraseCons(carried, review, tail[..i]);
      assert |rows| == i + 1 && present[i + 1] == tail[i];
      assert LastDatePhrase(carried, present[..i + 1]) == LastDatePhrase(next, tail[..i]);
      assert FailsWith(rest.error, present[|rows|], product, url, LastDatePhrase(carried, present[..|rows|]), formatDate);
    }
  }

  /** Every row carries the page's product title and URL. */
  predicate Stamped(rows: seq<Review>, product: Value, url: string) {
    forall i :: 0 <= i < |rows| ==>
      "product" in rows[i] && rows[i]["product"] == product &&
      "url" in rows[i] && rows[i]["url"] == Str(url)
  }

  /** Every row a page writes carries the page's product title and the URL the page was fetched
      from, also when an error ends the page early. */
  lemma {:induction false} RowsStamped(reviews: seq<Option<Review>>, product: Value, url: string,
                                       carried: Option<string>, formatDate: string -> Option<string>)
    ensures Stamped(ReviewRows(reviews, product, url, carried, formatDate).rows, product, url)
    decreases |reviews|
  {
    if reviews != [] {
      match reviews[0]
      case None =>
        RowsStamped(reviews[1..], product, url, carried, formatDate);
      case Some(review) =>
        var first := NormalizeReview(review, product, url, carried, formatDate);
        if first.Success? && RowCheck(first.value.row, Columns).None? {
          var next := Some(first.value.datePosted);
          RowsStamped(reviews[1..], product, url, next, formatDate);
          StampedTake(reviews, review, product, url, carried, formatDate);
        }
    }
  }

  /** The step of the loop that writes the row of the first review keeps every row stamped. */
  lemma StampedTake(reviews: seq<Option<Review>>, review: Review, product: Value, url: string,
                    carried: Option<string>, formatDate: string -> Option<string>)
    requires reviews != [] && reviews[0] == Some(review)
    requires var first := NormalizeReview(review, product, url, carried, formatDate);
      first.Success? && RowCheck(first.value.row, Columns).None? &&
      Stamped(ReviewRows(reviews[1..], product, url, Some(first.value.datePosted), formatDate).rows, product, url)
    ensures Stamped(ReviewRows(reviews, product, url, carried, formatDate).rows, product, url)
  {
    var first := NormalizeReview(review, product, url, carried, formatDate).value;
    var rest := ReviewRows(reviews[1..], product, url, Some(first.datePosted), formatDate).rows;
    var rows := ReviewRows(reviews, product, url, carried, formatDate).rows;
    assert rows == [first.row] + rest;
    forall i | 0 <= i < |rows|
      ensures "product" in rows[i] && rows[i]["product"] == product && "url" in rows[i] && rows[i]["url"] == Str(url)
    {
      if i > 0 {
        assert rows[i] == rest[i - 1];
      }
    }
  }

  /** A review whose date is None is dated by the nearest earlier review on the page whose date is a
      str: the phrase `date_posted` still holds from that review is reused. */
  lemma DateCarriedOver(reviews: seq<Option<Review>>, product: Value, url: string,
                        formatDate: string -> Option<string>, i: nat)
    requires i < |ReviewRows(reviews, product, url, None, formatDate).rows|
    requires i < |Present(reviews)| && "date" in Present(reviews)[i] && Present(reviews)[i]["date"] == Null
    ensures var phrase := LastDatePhrase(None, Present(reviews)[..i]);
      var row := ReviewRows(reviews, product, url, None, formatDate).rows[i];
      phrase.Some? && "date" in row && row["date"].Str? && formatDate(phrase.value) == Some(row["date"].text)
  {
    ReviewRowsInOrder(reviews, product, url, None, formatDate);
    var present := Present(reviews);
    var rows := ReviewRows(reviews, product, url, None, formatDate).rows;
    assert WrittenAs(rows[i], present[i], product, url, LastDatePhrase(None, present[..i]), formatDate);
  }

  /** When the first review of a page has a None date there is no phrase to reuse: the page writes no
      row and ends with an error, the UnboundLocalError of the source unless an earlier field of
      that review already failed. */
  lemma FirstReviewUndated(reviews: seq<Option<Review>>, product: Value, url: string,
                           formatDate: string -> Option<string>)
    requires |Present(reviews)| > 0 && "date" in Present(reviews)[0] && Present(reviews)[0]["date"] == Null
    ensures ReviewRows(reviews, product, url, None, formatDate).rows == []
    ensures ReviewRows(reviews, product, url, None, formatDate).error.Some?
    ensures var first := Present(reviews)[0];
      "rating" in first && !first["rating"].List? && "images" in first ==>
      ReviewRows(reviews, product, url, None, formatDate).error == Some(DateUnbound)
  {
    ReviewRowsInOrder(reviews, product, url, None, formatDate);
    var present := Present(reviews);
    assert present[..0] == [];
  }

  /** Every row a page writes carries the title the extractor found on that page and the URL the
      page was fetched from; a page without data or behind the CAPTCHA writes nothing. */
  lemma PageStamped(html: string, url: string, libs: Libraries)
    ensures var out := PageOutcome(html, url, libs);
      (libs.extract(html).None? || Contains(html, CaptchaMarker) ==> out.rows == []) &&
      (libs.extract(html).Some? ==> Stamped(out.rows, libs.extract(html).value.productTitle, url))
  {
    var data := libs.extract(html);
    if data.Some? && data.value.reviews.Some? {
      RowsStamped(data.value.reviews.value, data.value.productTitle, url, None, libs.formatDate);
    }
  }

  /** A review the loop normalises and the writer accepts whenever a date phrase is at hand: rating,
      date and images present, rating and date not lists, a str date whose phrase the date library
      parses, and no field outside the CSV columns. */
  predicate WellFormed(review: Review, formatDate: string -> Option<string>) {
    "rating" in review && !review["rating"].List? &&
    "date" in review && !review["date"].List? &&
    "images" in review &&
    (review["date"].Str? ==> formatDate(DatePhrase(review["date"].text)).Some?) &&
    (forall k :: k in review ==> k in Columns)
  }

  /** A page of well-formed reviews whose first review is dated (or that starts with a parsable
      carried phrase) is written completely: no error, one row per non-None review. */
  lemma {:induction false} ReviewRowsComplete(reviews: seq<Option<Review>>, product: Value, url: string,
                                              carried: Option<string>, formatDate: string -> Option<string>)
    requires forall review :: review in Present(reviews) ==> WellFormed(review, formatDate)
    requires carried.Some? ==> formatDate(carried.value).Some?
    requires carried.None? && |Present(reviews)| > 0 ==>
      "date" in Present(reviews)[0] && Present(reviews)[0]["date"].Str?
    ensures var out := ReviewRows(reviews, product, url, carried, formatDate);
      out.error.None? && |out.rows| == |Present(reviews)|
    decreases |reviews|
  {
    if reviews != [] {
      match reviews[0]
      case None =>
        ReviewRowsComplete(reviews[1..], product, url, carried, formatDate);
      case Some(review) =>
        assert Present(reviews) == [review] + Present(reviews[1..]);
        assert review in Present(reviews);
        WellFormedWritten(review, product, url, carried, formatDate);
        var first := NormalizeReview(review, product, url, carried, formatDate).value;
        ReviewRowsComplete(reviews[1..], product, url, Some(first.datePosted), formatDate);
    }
  }

  /** One well-formed review with a phrase at hand is normalised, passes the row check, and hands on
      a phrase the date library parses. */
  lemma WellFormedWritten(review: Review, product: Value, url: string, carried: Option<string>,
                          formatDate: string -> Option<string>)
    requires WellFormed(review, formatDate)
    requires carried.Some? ==> formatDate(carried.value).Some?
    requires carried.None? ==> review["date"].Str?
    ensures var n := NormalizeReview(review, product, url, carried, formatDate);
      n.Success? && RowCheck(n.value.row, Columns).None? && formatDate(n.value.datePosted).Some?
  {
    assert Normalizable(review, carried, formatDate);
    var row := NormalizeReview(review, product, url, carried, formatDate).value.row;
    assert forall k :: k in row ==> k in Columns;
  }

  /** A None entry between two well-formed reviews, the first of them dated, is skipped: the page
      writes two rows and no error, the second dated by the first review's phrase when its own date
      is None. */
  lemma SkipsNoneEntry(a: Review, b: Review, product: Value, url: string, formatDate: string -> Option<string>)
    requires WellFormed(a, formatDate) && WellFormed(b, formatDate) && a["date"].Str?
    ensures var out := ReviewRows([Some(a), None, Some(b)], product, url, None, formatDate);
      out.error.None? && |out.rows| == 2 &&
      WrittenAs(out.rows[0], a, product, url, None, formatDate) &&
      WrittenAs(out.rows[1], b, product, url, Some(DatePhrase(a["date"].text)), formatDate)
  {
    var reviews := [Some(a), None, Some(b)];
    PresentSkips(a, b);
    ReviewRowsComplete(reviews, product, url, None, formatDate);
    ReviewRowsInOrder(reviews, product, url, None, formatDate);
    assert [a, b][..1] == [a];
    assert [a][..0] == [];
  }

  lemma PresentSkips(a: Review, b: Review)
    ensures Present([Some(a), None, Some(b)]) == [a, b]
  {
    var reviews := [Some(a), None, Some(b)];
    assert reviews[1..] == [None, Some(b)];
    assert reviews[1..][1..] == [Some(b)];
    assert [Some(b)][1..] == [];
    assert Present([Some(b)]) == [b];
    assert Present(reviews[1..]) == [b];
  }

  /** A page past the CAPTCHA check whose extraction has a review list of well-formed reviews, the
      first of them dated, writes one row per non-None review and stops without error. */
  lemma PageComplete(html: string, url: string, libs: Libraries)
    requires !Contains(html, CaptchaMarker)
    requires libs.extract(html).Some? && libs.extract(html).value.reviews.Some?
    requires var present := Present(libs.extract(html).value.reviews.value);
      (forall review :: review in present ==> WellFormed(review, libs.formatDate)) &&
      (|present| > 0 ==> "date" in present[0] && present[0]["date"].Str?)
    ensures var out := PageOutcome(html, url, libs);
      out.error.None? && |out.rows| == |Present(libs.extract(html).value.reviews.value)|
  {
    var data := libs.extract(html).value;
    ReviewRowsComplete(data.reviews.value, data.productTitle, url, None, libs.formatDate);
  }

  /** Dropping the None entries leaves one review per non-None entry, in list order. */
  lemma {:induction false} PresentCount(reviews: seq<Option<Review>>)
    ensures |Present(reviews)| == |reviews| - multiset(reviews)[None]
    ensures forall review :: review in Present(reviews) <==> Some(review) in reviews
    ensures forall review :: multiset(Present(reviews))[review] == multiset(reviews)[Some(review)]
    decreases |reviews|
  {
    if reviews != [] {
      PresentCount(reviews[1..]);
      assert reviews == [reviews[0]] + reviews[1..];
      assert multiset(reviews) == multiset([reviews[0]]) + multiset(reviews[1..]);
      if reviews[0].Some? {
        assert Present(reviews) == [reviews[0].value] + Present(reviews[1..]);
        assert multiset(Present(reviews)) == multiset([reviews[0].value]) + multiset(Present(reviews[1..]));
      }
    }
  }

  /** Dropping the None entries of two lists one after the other gives the reviews of the first
      followed by those of the second; a None entry gives no review and a present one gives itself,
      so the reviews keep the order of the list. */
  lemma {:induction false} PresentConcat(xs: seq<Option<Review>>, ys: seq<Option<Review>>)
    ensures Present(xs + ys) == Present(xs) + Present(ys)
    ensures Present([None]) == [] && forall review :: Present([Some(review)]) == [review]
    decreases |xs|
  {
    if xs != [] {
      PresentConcat(xs[1..], ys);
      assert (xs + ys)[1..] == xs[1..] + ys;
    } else {
      assert xs + ys == ys;
    }
  }
}
