/** Option and Result, the failure-compatible wrappers used throughout the model. */
module Wrappers {

  datatype Option<+T> = None | Some(value: T)

  /** A successful value or the error that the Python code would raise instead. */
  datatype Result<+R, +E> = Success(value: R) | Failure(error: E) {
    predicate IsFailure() {
      Failure?
    }

    function PropagateFailure<U>(): Result<U, E>
      requires Failure?
    {
      Failure(error)
    }

    function Extract(): R
      requires Success?
    {
      value
    }
  }
}

/** The exceptions the scraper can raise, as values. */
module Errors {

  datatype ScrapeError =
    | Captcha                         // the page asks to solve a CAPTCHA: "CAPTCHA is not bypassed"
    | LayoutMismatch                  // IndexError: the review-count label or its fifth token is missing
    | NotAnInteger(token: string)     // ValueError from int() on the review-count token
    | MissingKey(key: string)         // KeyError on a review field
    | NotAString(key: string)         // AttributeError: `.split` on a field that holds a list
    | NotIterable                     // TypeError: the page's review list is None
    | DateUnbound                     // UnboundLocalError: `date_posted` used before any date was seen
    | DateUnparsable(phrase: string)  // the date library cannot parse the date phrase
    | ExtraFields(keys: set<string>)  // ValueError from the CSV writer: keys outside the ten columns
}
