# Amazon review scraper, modelled in Dafny

This project models the `amazon_review_scraper` class of `amazon-review-scraper.py`. The class
scrapes the customer reviews of one product, page by page, into a CSV file named after the
product's ASIN. The model covers five parts of the class:

- **Construction.** The page-URL template, and fetching the page total from page 1. The
  requested end page is clamped to that total.
- **`total_pages`.** The fifth space-separated word of the review-count label, stripped of its
  thousands commas and parsed as an int. The result is that count over ten reviews a page,
  rounded up.
- **`request_wrapper`.** A page that shows the support address of Amazon's CAPTCHA wall
  (`api-services-support@amazon.com`) fails the whole scrape.
- **`page_scraper`.** A review list entry that is None is skipped. Each other review is stamped
  with the product title and the page URL. Its verified, rating, date and images fields are then
  normalised, and it is written as a CSV row. The date phrase in `date_posted` carries over from
  one review to the next, so a review whose date is None is dated by the last review before it
  whose date is a str. A review with no `date` key at all raises KeyError. If the first review of
  a page has a None date, there is nothing to carry over, and the page fails.
- **`scrape`.** Pages from the start page to the end page, both included, in order. The first
  failing page ends the run.

The code is organised as follows:

- **Modules.** `Text`, `Numbers` and `Request` model the Python string operations, `int()` and
  `str()`, and the CAPTCHA check. `Pager` models the page total, the clamp, the page range and
  the page URL. `Fields` holds the per-review rules and `Pages` the review loop of one page.
  `Scraper` holds the classes.
- **Classes.** `Scraper.ReviewScraper` is the scraper object. `Scraper.Browser` is the browser
  session: it records every URL it is asked to load. `Scraper.CsvWriter` is the `csv.DictWriter`:
  it records every row it accepts. Each method of these classes is proved equal to a function of
  the old state (`CheckPage`, `TotalPagesOf`, `PageOutcome`, `RunPages`). The properties are
  proved about those functions.
- **Errors.** Every exception the source can raise on these paths is a `ScrapeError` value:
  - the CAPTCHA failure;
  - a missing count element or too few words in the label (the IndexError);
  - a non-numeric count (the ValueError);
  - a missing review key (KeyError);
  - a list where a str is expected (AttributeError);
  - a None review list (TypeError);
  - an unbound `date_posted` (UnboundLocalError);
  - an unparsable date;
  - a row with keys outside the CSV columns (the ValueError of `DictWriter`).

Some of the code's behaviour is easy to misread. The model follows the code:

- **Absent `verified` key.** One might expect a missing field to become "No". The code only
  rewrites `verified` when the review has that key, so an absent key stays absent.
- **Re-normalising.** One might expect normalising a normalised review to change nothing. The
  code does change it:
  - a second pass of the verified rule turns "Yes" into "No" (`Fields.VerifiedSecondPass`);
  - a second pass of the images rule joins the characters of the joined str
    (`Fields.ImagesSecondPass`);
  - only the rating rule is idempotent (`Fields.RatingIdempotent`).
- **Images.** One might expect absent images to become an empty string. In the code, a review
  without an `images` key raises KeyError. A None or empty images value is kept as it is.
- **Dates.** One might expect each row to carry its own review's date. In the code, a review
  whose date is None reuses the previous review's phrase (`Pages.DateCarriedOver`). A first
  review whose date is None fails the page (`Pages.FirstReviewUndated`).

## Model

| member | source | states |
|---|---|---|
| Text.Split | amazon-review-scraper.py:121-123 | `str.split(sep)`, defined by its body: at least one piece; its properties are stated by `Text.JoinSplit`, `Text.SplitPiecesFree` and `Text.SplitLast` (also used for the label at line 64) |
| Text.Join | amazon-review-scraper.py:125 | `sep.join(parts)`, defined by its body; its properties are stated by `Text.JoinSplit`, `Text.JoinCharCount` and `Text.SplitJoinChar` |
| Text.IndexOf | amazon-review-scraper.py:148 | the result is a position where the pattern occurs and no earlier position has it; None means it occurs nowhere (the substring test `in`) |
| Text.StripStart | amazon-review-scraper.py:63-64 | the result is a suffix of the input; every character dropped is white space and the result does not start with white space |
| Text.StripEnd | amazon-review-scraper.py:63-64 | the result is a prefix of the input; every character dropped is white space and the result does not end with white space |
| Text.Strip | amazon-review-scraper.py:63-64 | the stripped text is a contiguous part of the input; every character of the input before it and after it is white space, and it neither starts nor ends with white space |
| Text.RemoveChar | amazon-review-scraper.py:64 | `replace(',', '')` leaves no comma and is no longer than the text |
| Text.RemoveCharCounts | amazon-review-scraper.py:64 | every other character occurs as often as before, and the text shortens by exactly the number of commas |
| Text.RemoveCharConcat | amazon-review-scraper.py:64 | removing the commas of a concatenation removes them from each part, keeping the parts in order |
| Text.RemoveCharAbsent | amazon-review-scraper.py:64 | a text without commas is left as it is |
| Text.JoinSplit | amazon-review-scraper.py:64 | splitting loses nothing: joining the pieces with the separator gives the text back |
| Text.SplitPiecesFree | amazon-review-scraper.py:121 | no piece of a split contains the separator |
| Text.SplitLast | amazon-review-scraper.py:123 | the last piece of a split ends the text, has no separator in it, and follows a separator when the text has one |
| Text.Chars | amazon-review-scraper.py:125 | a str iterates as its characters, one one-character string per position |
| Text.JoinCharCount | amazon-review-scraper.py:125 | joining k parts without the newline puts exactly k - 1 newlines in the result |
| Text.SplitJoinChar | amazon-review-scraper.py:125 | splitting such a join on the newline gives the parts back |
| Numbers.ParseInt | amazon-review-scraper.py:63 | `int()` of a str, defined by its body: the white space `int()` accepts (`Numbers.IsIntSpace`) around an optional sign and ASCII digits, with single underscores allowed between digits; None for anything else. `Numbers.IntRoundTrip` states that it reads back what `Numbers.IntToString` writes |
| Numbers.ParseIntBlank | amazon-review-scraper.py:63 | `int(' 5')` is 5: a blank around the number is dropped |
| Numbers.ParseIntSeparator | amazon-review-scraper.py:63-64 | a number behind one of the separators U+001C to U+001F does not parse, although `strip()` drops that separator |
| Numbers.SeparatorExample | amazon-review-scraper.py:63-64 | `int('\x1c5')` fails while `'\x1c5'.strip()` is `'5'` |
| Numbers.IntToString | amazon-review-scraper.py:104 | `str()` of an int as `format` writes it, defined by its body; `Numbers.NatToStringValue`, `Numbers.IntRoundTrip` and `Numbers.IntToStringInjective` state its properties |
| Numbers.NatToStringValue | amazon-review-scraper.py:104 | the digits `str(n)` writes denote n |
| Numbers.IntRoundTrip | amazon-review-scraper.py:63 | `int(str(n)) == n` for every int n, negative ones included |
| Numbers.IntToStringInjective | amazon-review-scraper.py:104 | different ints are written differently |
| Numbers.CeilDiv10 | amazon-review-scraper.py:69 | the least r with 10 * r >= n, that is, `ceil(n / 10)`; exactly n / 10 for a multiple of ten |
| Request.CheckPage | amazon-review-scraper.py:148-150 | a page is passed on unchanged exactly when the CAPTCHA marker does not occur in it, and refused with the CAPTCHA error otherwise |
| Request.CaptchaAnywhere | amazon-review-scraper.py:148 | a page is refused exactly when the marker occurs at some position |
| Request.CaptchaInContext | amazon-review-scraper.py:148-149 | whatever surrounds the marker, the page is refused |
| Pager.TotalFromLabel | amazon-review-scraper.py:63-69 | a missing fifth word gives the layout error; a fifth word that does not parse after comma removal gives the not-an-integer error; otherwise the total is the least page count that holds the parsed number of reviews at ten a page |
| Pager.CountTokenOfWords | amazon-review-scraper.py:63-64 | for a label of at least five space-free words joined by single spaces, with no white space at either end, the count word is the fifth word |
| Pager.TotalOfCount | amazon-review-scraper.py:63-69 | a fifth word that is a count written with or without thousands commas gives the ceiling of that count over ten |
| Pager.TotalOfWords | amazon-review-scraper.py:61-69 | a label of space-free words joined by single spaces, with the count as fifth word, gives the ceiling of the count over ten pages |
| Pager.SeparatorDropped | amazon-review-scraper.py:64 | a thousands comma between two comma-free digit groups is dropped and the groups are kept |
| Pager.TotalOfExampleLabel | amazon-review-scraper.py:63-69 | the seven-word label "5,678 global ratings ... 1,234 global reviews", whose fifth word is "1,234", gives 124 pages |
| Pager.TotalOfWholePages | amazon-review-scraper.py:69 | a count of exactly ten reviews a page for p pages gives p pages, not p + 1 |
| Pager.TotalPagesOf | amazon-review-scraper.py:55-69 | the CAPTCHA page fails with the CAPTCHA error, a page without the count element with the layout error, any other page gives the total of its label |
| Pager.EffectiveEndPage | amazon-review-scraper.py:42-46 | the end page never exceeds the total; without a requested end page it is the total, and with one it is the smaller of the two |
| Pager.PageRange | amazon-review-scraper.py:89 | `range(start, end + 1)`, defined by its body; `Pager.PageRangeSpec` states its length, its elements and when it is empty |
| Pager.PageRangeSpec | amazon-review-scraper.py:89 | `range(start, end + 1)` holds end - start + 1 pages, the k-th being start + k, and is empty when end < start |
| Pager.PageUrl | amazon-review-scraper.py:35 | a page's address is the product's URL template followed by the page number as `str()` writes it |
| Pager.PageUrlInjective | amazon-review-scraper.py:104 | different pages are fetched from different addresses |
| Fields.NormalizeVerified | amazon-review-scraper.py:115-119 | with the key present, verified becomes "Yes" exactly when its value is non-None and mentions "Verified Purchase", and "No" otherwise; without the key nothing changes; no other field changes |
| Fields.VerifiedSecondPass | amazon-review-scraper.py:115-119 | applying the verified rule to its own output yields "No" whatever the first pass gave |
| Fields.RatingText | amazon-review-scraper.py:121 | the kept rating is the prefix before the first " out of", the whole text when there is none, and contains no " out of" |
| Fields.NormalizeRating | amazon-review-scraper.py:120-121 | succeeds exactly when the review has a rating key whose value is not a list; a missing key raises KeyError; a list rating raises AttributeError; a None rating is kept; a str rating is cut before " out of"; no other field changes |
| Fields.RatingOfNumeral | amazon-review-scraper.py:121 | "numeral out of ..." keeps exactly the numeral |
| Fields.RatingIdempotent | amazon-review-scraper.py:120-121 | applying the rating rule twice gives what applying it once gives |
| Fields.DatePhrase | amazon-review-scraper.py:123 | the date phrase ends the date text, contains no "on ", and follows an "on " when the text has one |
| Fields.DatePhraseWhole | amazon-review-scraper.py:123 | a date text without "on " is kept whole as its phrase, since `split` then returns the text as its only piece |
| Fields.DatePhraseAfterLastOn | amazon-review-scraper.py:123 | whatever precedes the last "on ", the phrase is exactly the text after it |
| Fields.NormalizeImages | amazon-review-scraper.py:124-125 | succeeds exactly when the review has an images key, and raises KeyError otherwise; only the images field changes, to its newline-joined value |
| Fields.ImagesJoined | amazon-review-scraper.py:125 | k image URLs without newlines become one str with k - 1 newlines, from which splitting on newlines gives the URLs back |
| Fields.ImagesSecondPass | amazon-review-scraper.py:124-125 | applying the images rule to its own output is not a no-op |
| Fields.StampAndRate | amazon-review-scraper.py:113-121 | stamping and the verified and rating rules succeed exactly when the rating is present and not a list; the result adds the product and URL, follows the verified and rating rules, and keeps every other field |
| Fields.NormalizeReview | amazon-review-scraper.py:113-126 | normalisation succeeds exactly when rating, date and images are present, rating and date are not lists, and there is a date phrase (its own or the carried one) that the date library parses. A normalised review has its own keys plus product, url and date. It carries the page's product and URL, and its date is the formatted date phrase. That phrase is its own date's phrase when it has one, and the carried phrase when its date is None. A None date with nothing carried fails, with the UnboundLocalError when rating and images are well formed |
| Fields.NormalizeReviewFields | amazon-review-scraper.py:115-125 | in a normalised review, verified, rating and images follow their rules, and every field the loop does not touch is unchanged |
| Pages.RowCheck | amazon-review-scraper.py:83-84 | a row is accepted exactly when all its keys are CSV columns; otherwise the error names exactly the keys outside them |
| Pages.PageOutcome | amazon-review-scraper.py:105-110 | a CAPTCHA page writes nothing and fails with the CAPTCHA error; any page without data writes nothing, and a page past the CAPTCHA check without data also ends without error; a page whose review list is None fails with the TypeError |
| Pages.Present | amazon-review-scraper.py:110-112 | the reviews the loop does not skip, defined by its body: never more than the entries; `Pages.PresentCount` and `Pages.PresentConcat` state which reviews and in what order |
| Pages.PresentCount | amazon-review-scraper.py:110-112 | skipping None entries leaves one review per non-None entry; each review occurs exactly as often as the entries holding it |
| Pages.PresentConcat | amazon-review-scraper.py:110-112 | skipping None entries of two lists one after the other gives the reviews of the first, then those of the second; a None entry gives no review, a present one gives itself, so list order is kept |
| Pages.LastDatePhrase | amazon-review-scraper.py:122-123 | what `date_posted` holds after some reviews, defined by its body: the phrase of the last one whose date is a str, else the carried phrase; `Pages.DateCarriedOver` and `Pages.ReviewRowsInOrder` state how the rows use it |
| Pages.ReviewRows | amazon-review-scraper.py:110-127 | the review loop of one page, defined by its body; `Pages.ReviewRowsInOrder`, `Pages.ReviewRowsStop`, `Pages.ReviewRowsCount` and `Pages.ReviewRowsComplete` state what it writes and where it stops |
| Pages.ReviewRowsInOrder | amazon-review-scraper.py:110-127 | the i-th row written is the normalisation of the i-th non-None review, dated by the last date phrase seen before it, and the writer accepted it; the page ends early exactly when an error stops it, and then with the error of the first review left unwritten |
| Pages.ReviewRowsStop | amazon-review-scraper.py:110-127 | when an error ends the page, the written rows stay, and the error is that of the next non-None review, dated by the last phrase before it: its normalisation error, or the writer's refusal of its row |
| Pages.ReviewRowsCount | amazon-review-scraper.py:110-127 | a page writes at most one row per non-None review, and all of them exactly when no error stops it |
| Pages.WellFormedWritten | amazon-review-scraper.py:113-127 | a review with rating, date and images present, no list rating or date, only CSV columns as keys and a parsable date phrase at hand is normalised, accepted by the writer, and hands on a parsable phrase |
| Pages.ReviewRowsComplete | amazon-review-scraper.py:110-127 | a page of such reviews whose first review is dated writes one row per non-None review and ends without error |
| Pages.SkipsNoneEntry | amazon-review-scraper.py:110-127 | reviews a, None, b with a dated give two rows and no error: the row of a, then the row of b dated by a's phrase when b has no date |
| Pages.PageComplete | amazon-review-scraper.py:105-127 | a page past the CAPTCHA check whose review list holds such reviews writes one row per non-None review and ends without error |
| Pages.RowsStamped | amazon-review-scraper.py:113-114 | every row written carries the page's product title and URL, including when an error ends the page early |
| Pages.DateCarriedOver | amazon-review-scraper.py:122-126 | a written review whose date is None is dated by the phrase of the last earlier review with a str date |
| Pages.FirstReviewUndated | amazon-review-scraper.py:122-126 | a page whose first review has a None date writes no row and fails; when that review's rating and images are well formed, the error is the UnboundLocalError |
| Pages.PageStamped | amazon-review-scraper.py:105-114 | a page without data or behind the CAPTCHA writes nothing; every row of a page with data carries that page's title and URL |
| Scraper.Browser.constructor | amazon-review-scraper.py:13 | a fresh browser session has loaded nothing |
| Scraper.Browser.Load | amazon-review-scraper.py:141-144 | loading records the URL and returns the page source that URL renders to |
| Scraper.CsvWriter.constructor | amazon-review-scraper.py:81-84 | the writer for a file starts with the given columns and no rows |
| Scraper.CsvWriter.WriteRow | amazon-review-scraper.py:127 | a row is appended exactly when the row check accepts it, and the writer's rows are otherwise unchanged |
| Scraper.Urls | amazon-review-scraper.py:104 | the k-th URL is the address of the k-th page |
| Scraper.RunPages | amazon-review-scraper.py:89-91 | the page loop, defined by its body; `Scraper.RunPrefix`, `Scraper.RunRows` and `Scraper.PagesVisited` state which pages are fetched and what they write |
| Scraper.RunPrefix | amazon-review-scraper.py:89-91 | a scrape fetches a prefix of its pages: all of them when none fails, up to and including the failing page otherwise; it ends without error exactly when no page of the range fails |
| Scraper.RunRows | amazon-review-scraper.py:89-91 | a scrape's rows are the rows of its fetched pages, in page order; every page before the last fetched succeeded, and a run's error is the last fetched page's error, whether that page failed or not |
| Scraper.PagesVisited | amazon-review-scraper.py:89-91 | the k-th page fetched is start + k; an error-free scrape fetches all end - start + 1 pages; a range with end < start fetches nothing |
| Scraper.ReviewScraper.constructor | amazon-review-scraper.py:32-41 | the scraper keeps the ASIN, the sleep time and the start page, and builds the URL template from the site and the ASIN |
| Scraper.ReviewScraper.RequestWrapper | amazon-review-scraper.py:129-150 | the URL is loaded once and its page passes the CAPTCHA check or fails with it |
| Scraper.ReviewScraper.TotalPages | amazon-review-scraper.py:48-70 | page 1 is loaded once, and the result is the page total of that page |
| Scraper.ReviewScraper.PageScraper | amazon-review-scraper.py:97-127 | the page's URL is loaded once, the writer gains exactly the rows of that page, and the error is the page's error |
| Scraper.ReviewScraper.Scrape | amazon-review-scraper.py:72-95 | the CSV file is named after the ASIN and has the ten columns. It holds exactly the rows of the scraped pages, in page order. The browser loads exactly the fetched pages' URLs, in order. The error is the first page error |
| Scraper.Create | amazon-review-scraper.py:21-46 | construction loads page 1 once and fails exactly when the page total fails; otherwise the scraper's end page is the clamped end page |

## Left out

- Selenium is modelled as a function from URL to rendered page source. The browser is assumed to
  render a URL the same way every time, and waiting for rendering is not modelled.
- BeautifulSoup's lookup of the count element and its text is the function `countLabel`. A
  missing `div` or `span` (the IndexError of `content[0]` or `[0]`) is its None result.
- The selectorlib extraction driven by `selectors.yml` is the function `extract`. Its result is
  assumed to always hold the `product_title` and `reviews` keys, as selectorlib fills in every
  key of the layout. A falsy result, None or an empty dict, is modelled as None.
- dateutil's `parse` followed by `strftime('%d %b %Y')` is the function `formatDate`. Its None
  result stands for the parse failure.
- The CSV text itself is not modelled: the header row, `QUOTE_ALL` quoting, the encoding, and the
  empty cells `DictWriter` writes for missing columns. The writer is its list of accepted rows.
- `time.sleep` between pages, the `tqdm` progress bar and the `print` calls have no effect on the
  result and are left out.
- The module-level loop over `products.txt` (lines 157-163) is file input and is left out.
  `Scraper.Create` models one iteration's construction.
- The module-level browser and extractor (lines 13 and 17) are parameters of the methods, not
  globals.
- Numbers.CeilDiv10: it is the exact ceiling. The source divides as a float, which can round
  wrongly for review counts above 2^53. When the quotient exceeds the largest float (counts of
  about 1.8e309 and more), `total_reviews/10` raises OverflowError; that error is not modelled.
- Numbers.ParseInt models the ASCII digits and underscores between digits (`int('1_234')`).
  `int()` also accepts other Unicode decimal digits, and those are not modelled. From Python
  3.11 on, `int()` also refuses strings of more than 4300 digits; that limit is not modelled.
- Text.IsSpace is the white-space set of `str.isspace`, which `strip()` drops.
- Pager.UrlTemplate assumes the site and ASIN contain no braces. A brace there would change what
  `str.format` fills in.
- Fields.Value models review fields as None, a str or a list of str. Other value types the
  extractor could produce, such as nested dicts, are not modelled.
- Fields.DatePhrase: its own contract does not say that a text without "on " is kept whole;
  `Fields.DatePhraseWhole` states that case, so the contract of `DatePhrase`, which every date
  proof sees, stays small.
- Scraper.Create takes every argument explicitly. The defaults of `__init__` (line 21:
  `sleep_time=1`, `start_page=1`, `end_page=None`) are not modelled as defaults; a caller passes
  1, 1 and None.
