/** `request_wrapper`: the page a URL renders to, refused when it is the CAPTCHA wall. */
module Request {
  import opened Wrappers
  import opened Errors
  import opened Text

  /** The support address that only the CAPTCHA page shows. */
  const CaptchaMarker := "api-services-support@amazon.com"

  /** The check applied to every fetched page: the page is passed on unless the marker occurs in it,
      in which case the scrape fails with the CAPTCHA error. */
  function CheckPage(html: string): (r: Result<string, ScrapeError>)
    ensures r.Success? <==> !Contains(html, CaptchaMarker)
    ensures r.Success? ==> r.value == html
    ensures r.Failure? ==> r.error == Captcha
  {
    if Contains(html, CaptchaMarker) then Failure(Captcha) else Success(html)
  }

  /** A page is refused exactly when the marker occurs at some position of it. */
  lemma CaptchaAnywhere(html: string)
    ensures CheckPage(html).Failure? <==> exists i :: OccursAt(html, CaptchaMarker, i)
  {
    if exists i :: OccursAt(html, CaptchaMarker, i) {
      var i :| OccursAt(html, CaptchaMarker, i);
      assert IndexOf(html, CaptchaMarker).Some?;
    }
  }

  /** Surrounding text does not hide the marker. */
  lemma CaptchaInContext(before: string, after: string)
    ensures CheckPage(before + CaptchaMarker + after) == Failure(Captcha)
  {
    var html := before + CaptchaMarker + after;
    assert html[|before|..|before| + |CaptchaMarker|] == CaptchaMarker;
    assert OccursAt(html, CaptchaMarker, |before|);
  }
}
