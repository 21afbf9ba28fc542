/** The per-review normalisation in the body of `page_scraper`. */
module Fields {
  import opened Wrappers
  import opened Errors
  import opened Text

  /** What the extractor puts in a review field: Python's None, a str, or a list of str. */
  datatype Value = Null | Str(text: string) | List(items: seq<string>)

  /** One review as the extractor returns it: a dict from field names to values. */
  type Review = map<string, Value>

  /** Python truthiness of a field value. */
  predicate Truthy(v: Value) {
    match v
    case Null => false
    case Str(s) => |s| > 0
    case List(items) => |items| > 0
  }

  const VerifiedMarker := "Verified Purchase"
  const RatingSeparator := " out of"
  const DateSeparator := "on "
  const ImageSeparator := "\n"

  /** Python's `'Verified Purchase' in v` for a non-None value: a substring test on a str, a
      membership test on a list. */
  predicate MentionsVerified(v: Value) {
    match v
    case Null => false
    case Str(s) => Contains(s, VerifiedMarker)
    case List(items) => VerifiedMarker in items
  }

  /** The verified rule: when the review has the key, its value becomes "Yes" if it is non-None and
      mentions "Verified Purchase", "No" otherwise; without the key the review is left as it is. */
  function NormalizeVerified(review: Review): (r: Review)
    ensures r.Keys == review.Keys
    ensures forall k :: k in review && k != "verified" ==> r[k] == review[k]
    ensures "verified" in review ==>
      (r["verified"] == Str("Yes") || r["verified"] == Str("No")) &&
      (r["verified"] == Str("Yes") <==> review["verified"] != Null && MentionsVerified(review["verified"]))
  {
    if "verified" in review then
      review["verified" := if review["verified"] != Null && MentionsVerified(review["verified"]) then Str("Yes") else Str("No")]
    else review
  }

  /** The text before the first " out of" of a rating, or the whole text when it has none
      (`s.split(' out of')[0]`). */
  function RatingText(s: string): (r: string)
    ensures |r| <= |s| && r == s[..|r|]
    ensures !Contains(r, RatingSeparator)
    ensures r == s <==> !Contains(s, RatingSeparator)
    ensures r != s ==> OccursAt(s, RatingSeparator, |r|)
  {
    SplitPiecesFree(s, RatingSeparator);
    var pieces := Split(s, RatingSeparator);
    assert !Contains(pieces[0], RatingSeparator);
    pieces[0]
  }

  /** The rating rule: a non-None rating keeps only its text before " out of"; None stays None. */
  function NormalizeRating(review: Review): (r: Result<Review, ScrapeError>)
    ensures r.Success? <==> "rating" in review && !review["rating"].List?
    ensures "rating" !in review ==> r == Failure(MissingKey("rating"))
    ensures "rating" in review && review["rating"].List? ==> r == Failure(NotAString("rating"))
    ensures r.Success? ==>
      r.value.Keys == review.Keys &&
      (forall k :: k in review && k != "rating" ==> r.value[k] == review[k]) &&
      (review["rating"].Null? ==> r.value["rating"] == Null) &&
      (review["rating"].Str? ==> r.value["rating"] == Str(RatingText(review["rating"].text)))
  {
    if "rating" !in review then Failure(MissingKey("rating"))
    else match review["rating"]
      case Null => Success(review)
      case Str(s) => Success(review["rating" := Str(RatingText(s))])
      case List(_) => Failure(NotAString("rating"))
  }

  /** The date phrase of a date text: what follows its last "on ", or the whole text when it has
      none (`s.split('on ')[-1]`). */
  function DatePhrase(s: string): (r: string)
    ensures EndsWith(s, r)
    ensures !Contains(r, DateSeparator)
    ensures Contains(s, DateSeparator) ==> EndsWith(s, DateSeparator + r)
  {
    SplitLast(s, DateSeparator);
    Last(Split(s, DateSeparator))
  }

  /** A date text without "on " is its own date phrase (`split` then gives the whole text as
      its only piece). */
  lemma DatePhraseWhole(s: string)
    requires !Contains(s, DateSeparator)
    ensures DatePhrase(s) == s
  {
    SplitWithout(s, DateSeparator);
  }

  /** The phrase `date_posted` holds after a review: the new phrase when the review's date is a
      str, the carried phrase when it is None. */
  function DatePosted(review: Review, carried: Option<string>): (r: Result<Option<string>, ScrapeError>)
    ensures r.Success? <==> "date" in review && !review["date"].List?
    ensures "date" !in review ==> r == Failure(MissingKey("date"))
    ensures "date" in review ==> match review["date"]
      case Null => r == Success(carried)
      case Str(s) => r == Success(Some(DatePhrase(s)))
      case List(_) => r == Failure(NotAString("date"))
  {
    if "date" !in review then Failure(MissingKey("date"))
    else match review["date"]
      case Null => Success(carried)
      case Str(s) => Success(Some(DatePhrase(s)))
      case List(_) => Failure(NotAString("date"))
  }

  /** `"\n".join(v)` when the images value is truthy: a list is joined, and a str (an iterable of
      characters) has its characters joined; a falsy value is kept. */
  function JoinedImages(v: Value): (r: Value)
    ensures !Truthy(v) ==> r == v
    ensures v.List? && Truthy(v) ==> r == Str(Join(v.items, ImageSeparator))
    ensures v.Str? && Truthy(v) ==> r == Str(Join(Chars(v.text), ImageSeparator))
  {
    if !Truthy(v) then v
    else match v
      case List(items) => Str(Join(items, ImageSeparator))
      case Str(s) => Str(Join(Chars(s), ImageSeparator))
      case Null => v
  }

  /** The images rule: `review['images']` must exist; its value is joined as above. */
  function NormalizeImages(review: Review): (r: Result<Review, ScrapeError>)
    ensures r.Success? <==> "images" in review
    ensures "images" !in review ==> r == Failure(MissingKey("images"))
    ensures r.Success? ==>
      r.value.Keys == review.Keys &&
      (forall k :: k in review && k != "images" ==> r.value[k] == review[k]) &&
      r.value["images"] == JoinedImages(review["images"])
  {
    if "images" !in review then Failure(MissingKey("images"))
    else Success(review["images" := JoinedImages(review["images"])])
  }

  /** A second pass of the verified rule over its own output turns "Yes" into "No": the rule is
      not idempotent, because "Yes" does not contain the marker. */
  lemma VerifiedSecondPass(review: Review)
    requires "verified" in review
    ensures NormalizeVerified(NormalizeVerified(review)) == review["verified" := Str("No")]
  {
    assert !Contains("Yes", VerifiedMarker) && !Contains("No", VerifiedMarker);
  }

  /** A rating written as a space-free numeral followed by " out of" and anything else keeps exactly
      the numeral: "4 out of 5 stars" becomes "4". */
  lemma RatingOfNumeral(numeral: string, rest: string)
    requires ' ' !in numeral
    ensures RatingText(numeral + RatingSeparator + rest) == numeral
  {
    var s := numeral + RatingSeparator + rest;
    assert s[..|numeral|] == numeral;
    assert OccursAt(s, RatingSeparator, |numeral|);
    var i := IndexOf(s, RatingSeparator).value;
    assert s[i + 0] == RatingSeparator[0] == ' ';
    assert forall k :: 0 <= k < |numeral| ==> s[k] == numeral[k];
    assert i == |numeral|;
    assert Split(s, RatingSeparator)[0] == s[..i];
  }

  /** The rating rule is idempotent: its output has no " out of" left to cut. */
  lemma RatingIdempotent(review: Review)
    requires NormalizeRating(review).Success?
    ensures NormalizeRating(NormalizeRating(review).value) == NormalizeRating(review)
  {
    var once := NormalizeRating(review).value;
    if review["rating"].Str? {
      var r := RatingText(review["rating"].text);
      assert !Contains(r, RatingSeparator);
      assert RatingText(r) == r;
      assert once == review["rating" := Str(r)];
      assert once["rating" := Str(RatingText(r))] == once;
    } else {
      assert once == review;
    }
  }

  /** The "on " of a date text cannot start one or two characters before another "on ". */
  lemma DateSeparatorNoOverlap(s: string, i: int, j: int)
    requires OccursAt(s, DateSeparator, i) && OccursAt(s, DateSeparator, j) && i < j
    ensures i + |DateSeparator| <= j
  {
    assert s[i + 1] == DateSeparator[1] == 'n' && s[i + 2] == DateSeparator[2] == ' ';
    assert s[j + 0] == DateSeparator[0] == 'o';
  }

  lemma SeparatorOccurs(prefix: string, date: string)
    ensures OccursAt(prefix + DateSeparator + date, DateSeparator, |prefix|)
  {
    var s := prefix + DateSeparator + date;
    assert s[|prefix|..|prefix| + 3] == DateSeparator;
  }

  /** Whatever precedes the last "on ", the phrase after it is the date phrase. */
  lemma {:induction false} DatePhraseAfterLastOn(prefix: string, date: string)
    requires !Contains(date, DateSeparator)
    ensures DatePhrase(prefix + DateSeparator + date) == date
    decreases |prefix|
  {
    var s := prefix + DateSeparator + date;
    SeparatorOccurs(prefix, date);
    var i := IndexOf(s, DateSeparator).value;
    SplitLastStep(s, DateSeparator, i);
    if i == |prefix| {
      assert s[i + 3..] == date;
      SplitWithout(date, DateSeparator);
    } else {
      DateSeparatorNoOverlap(s, i, |prefix|);
      var shorter := prefix[i + 3..];
      assert s[i + 3..] == shorter + DateSeparator + date;
      DatePhraseAfterLastOn(shorter, date);
    }
  }

  /** k image URLs without a newline in them are joined into one str with exactly k - 1 newlines,
      from which splitting on newlines gives the URLs back. */
  lemma ImagesJoined(items: seq<string>)
    requires |items| >= 1
    requires forall k :: 0 <= k < |items| ==> '\n' !in items[k]
    ensures JoinedImages(List(items)).Str?
    ensures multiset(JoinedImages(List(items)).text)['\n'] == |items| - 1
    ensures Split(JoinedImages(List(items)).text, ImageSeparator) == items
  {
    JoinCharCount(items, '\n');
    SplitJoinChar(items, '\n');
  }

  /** A second pass of the images rule over its own output is not a no-op: a joined str is truthy
      and gets its characters joined with newlines. */
  lemma ImagesSecondPass()
    ensures JoinedImages(JoinedImages(List(["ab"]))) == Str("a\nb")
  {
    assert Chars("ab") == ["a", "b"];
  }

  /** A review after normalisation, with the date phrase it was dated by (the new `date_posted`). */
  datatype Normalized = Normalized(row: Review, datePosted: string)

  /** The date phrase a review is dated by: its own when its date is a str, the carried one
      otherwise. */
  function PhraseFor(review: Review, carried: Option<string>): Option<string>
    requires "date" in review
  {
    if review["date"].Str? then Some(DatePhrase(review["date"].text)) else carried
  }

  /** The reviews the loop normalises without raising: rating, date and images present, rating and
      date not lists, and a date phrase to use that the date library can parse. */
  predicate Normalizable(review: Review, carried: Option<string>, formatDate: string -> Option<string>) {
    "rating" in review && !review["rating"].List? &&
    "date" in review && !review["date"].List? &&
    "images" in review &&
    PhraseFor(review, carried).Some? && formatDate(PhraseFor(review, carried).value).Some?
  }

  /** The first steps of the loop body: stamp product and url, then apply the verified and rating
      rules. */
  function StampAndRate(review: Review, product: Value, url: string): (r: Result<Review, ScrapeError>)
    ensures r.Success? <==> "rating" in review && !review["rating"].List?
    ensures r.Success? ==>
      r.value.Keys == review.Keys + {"product", "url"} &&
      r.value["product"] == product && r.value["url"] == Str(url) &&
      ("verified" in review ==> r.value["verified"] == NormalizeVerified(review)["verified"]) &&
      (review["rating"].Null? ==> r.value["rating"] == Null) &&
      (review["rating"].Str? ==> r.value["rating"] == Str(RatingText(review["rating"].text))) &&
      forall k :: k in review && k !in {"product", "url", "verified", "rating"} ==> r.value[k] == review[k]
  {
    var stamped := review["product" := product]["url" := Str(url)];
    var verified := NormalizeVerified(stamped);
    assert "verified" in review ==> verified["verified"] == NormalizeVerified(review)["verified"];
    NormalizeRating(verified)
  }

  /** One iteration of the review loop for a non-None review, up to the row handed to the writer:
      stamp product and url, apply the verified, rating, date and images rules in the source's
      order, and format the date phrase (carried over from an earlier review when this review's
      date is None). `formatDate` stands for the date library's parse and `strftime('%d %b %Y')`,
      None when it cannot parse the phrase. */
  function NormalizeReview(review: Review, product: Value, url: string, carried: Option<string>,
                           formatDate: string -> Option<string>): (r: Result<Normalized, ScrapeError>)
    ensures r.Success? <==> Normalizable(review, carried, formatDate)
    ensures r.Success? ==>
      var row := r.value.row;
      row.Keys == review.Keys + {"product", "url", "date"} &&
      row["product"] == product && row["url"] == Str(url) &&
      row["date"].Str? && formatDate(r.value.datePosted) == Some(row["date"].text)
    ensures r.Success? ==>
      (review["date"].Str? ==> r.value.datePosted == DatePhrase(review["date"].text)) &&
      (review["date"].Null? ==> carried == Some(r.value.datePosted))
    ensures "date" in review && review["date"].Null? && carried.None? ==> r.Failure?
    ensures ("date" in review && review["date"].Null? && carried.None? &&
             "rating" in review && !review["rating"].List? && "images" in review) ==> r == Failure(DateUnbound)
  {
    var rated :- StampAndRate(review, product, url);
    var phrase :- DatePosted(rated, carried);
    var imaged :- NormalizeImages(rated);
    if phrase.None? then Failure(DateUnbound)
    else match formatDate(phrase.value)
      case None => Failure(DateUnparsable(phrase.value))
      case Some(day) => Success(Normalized(imaged["date" := Str(day)], phrase.value))
  }

  /** The field rules in a normalised review: verified, rating and images follow their rules and
      every field the loop does not touch is unchanged. */
  lemma NormalizeReviewFields(review: Review, product: Value, url: string, carried: Option<string>,
                              formatDate: string -> Option<string>)
    requires NormalizeReview(review, product, url, carried, formatDate).Success?
    ensures var row := NormalizeReview(review, product, url, carried, formatDate).value.row;
      "rating" in review && "images" in review &&
      ("verified" in review ==> row["verified"] == NormalizeVerified(review)["verified"]) &&
      (review["rating"].Null? ==> row["rating"] == Null) &&
      (review["rating"].Str? ==> row["rating"] == Str(RatingText(review["rating"].text))) &&
      row["images"] == JoinedImages(review["images"]) &&
      (forall k :: k in review && k !in {"product", "url", "verified", "rating", "date", "images"} ==> row[k] == review[k])
  {
    RowRatedFields(review, product, url, carried, formatDate);
    RowImagedFields(review, product, url, carried, formatDate);
  }

  lemma RowRatedFields(review: Review, product: Value, url: string, carried: Option<string>,
                       formatDate: string -> Option<string>)
    requires NormalizeReview(review, product, url, carried, formatDate).Success?
    ensures var row := NormalizeReview(review, product, url, carried, formatDate).value.row;
      "rating" in review &&
      ("verified" in review ==> row["verified"] == NormalizeVerified(review)["verified"]) &&
      (review["rating"].Null? ==> row["rating"] == Null) &&
      (review["rating"].Str? ==> row["rating"] == Str(RatingText(review["rating"].text)))
  {
    var row := NormalizeStages(review, product, url, carried, formatDate);
    var rated := StampAndRate(review, product, url).value;
    assert row["rating"] == rated["rating"];
    if "verified" in review {
      assert row["verified"] == rated["verified"];
    }
  }

  lemma RowImagedFields(review: Review, product: Value, url: string, carried: Option<string>,
                        formatDate: string -> Option<string>)
    requires NormalizeReview(review, product, url, carried, formatDate).Success?
    ensures var row := NormalizeReview(review, product, url, carried, formatDate).value.row;
      "images" in review && row["images"] == JoinedImages(review["images"]) &&
      (forall k :: k in review && k !in {"product", "url", "verified", "rating", "date", "images"} ==> row[k] == review[k])
  {
    var row := NormalizeStages(review, product, url, carried, formatDate);
    var rated := StampAndRate(review, product, url).value;
    assert rated["images"] == review["images"];
  }

  /** A normalised row is the review after the rating and images rules, with the date replaced. */
  lemma NormalizeStages(review: Review, product: Value, url: string, carried: Option<string>,
                        formatDate: string -> Option<string>) returns (row: Review)
    requires NormalizeReview(review, product, url, carried, formatDate).Success?
    ensures row == NormalizeReview(review, product, url, carried, formatDate).value.row
    ensures StampAndRate(review, product, url).Success?
    ensures NormalizeImages(StampAndRate(review, product, url).value).Success?
    ensures var imaged := NormalizeImages(StampAndRate(review, product, url).value).value;
      row == imaged["date" := row["date"]]
  {
    var rated := StampAndRate(review, product, url);
    assert rated.Success?;
    var phrase := DatePosted(rated.value, carried);
    assert phrase.Success?;
    var imaged := NormalizeImages(rated.value);
    assert imaged.Success?;
    var day := formatDate(phrase.value.value);
    row := NormalizeReview(review, product, url, carried, formatDate).value.row;
    assert row == imaged.value["date" := Str(day.value)];
  }
}
