/** Python's `int()` on a decimal string, `str()` on an int, and `math.ceil(n / 10)`. */
module Numbers {
  import opened Wrappers
  import opened Text

  predicate IsDigit(c: char) {
    '0' <= c <= '9'
  }

  function DigitValue(c: char): (d: nat)
    requires IsDigit(c)
    ensures d < 10
  {
    (c as int) - ('0' as int)
  }

  function DigitChar(d: nat): (c: char)
    requires d < 10
    ensures IsDigit(c) && DigitValue(c) == d
  {
    (('0' as int) + d) as char
  }

  /** The body of a decimal literal as `int()` accepts it: digits, with single underscores allowed
      between two digits. */
  predicate IsDecimal(b: string) {
    |b| > 0 && IsDigit(b[0]) && IsDigit(b[|b| - 1]) &&
    (forall k :: 0 <= k < |b| ==> IsDigit(b[k]) || b[k] == '_') &&
    (forall k :: 0 <= k < |b| - 1 ==> !(b[k] == '_' && b[k + 1] == '_'))
  }

  /** The number the digits of `b` denote, underscores ignored. */
  function DecimalValue(b: string): nat
    requires forall k :: 0 <= k < |b| ==> IsDigit(b[k]) || b[k] == '_'
    decreases |b|
  {
    if b == [] then 0
    else if b[|b| - 1] == '_' then DecimalValue(b[..|b| - 1])
    else 10 * DecimalValue(b[..|b| - 1]) + DigitValue(b[|b| - 1])
  }

  /** The white space `int()` drops around its argument. Characters from U+0080 up that
      `str.isspace` accepts are read as a blank; below that only the ASCII blanks are, so the
      separators U+001C to U+001F, which `str.isspace` also accepts, make `int()` fail. */
  predicate IsIntSpace(c: char) {
    IsSpace(c) && !('\U{1c}' <= c <= '\U{1f}')
  }

  /** The argument of `int()` past its leading white space. */
  function TrimStart(s: string): (r: string)
    ensures |r| <= |s| && r == s[|s| - |r|..]
    ensures forall k :: 0 <= k < |s| - |r| ==> IsIntSpace(s[k])
    ensures r == [] || !IsIntSpace(r[0])
    decreases |s|
  {
    if |s| > 0 && IsIntSpace(s[0]) then TrimStart(s[1..]) else s
  }

  /** The argument of `int()` before its trailing white space. */
  function TrimEnd(s: string): (r: string)
    ensures |r| <= |s| && r == s[..|r|]
    ensures forall k :: |r| <= k < |s| ==> IsIntSpace(s[k])
    ensures r == [] || !IsIntSpace(r[|r| - 1])
    decreases |s|
  {
    if |s| > 0 && IsIntSpace(s[|s| - 1]) then TrimEnd(s[..|s| - 1]) else s
  }

  /** What `int()` reads: its argument without the white space at either end. */
  function Trim(s: string): string {
    TrimEnd(TrimStart(s))
  }

  /** Python's `int(t)` in base 10: surrounding white space, an optional sign, then a decimal body;
      None stands for the ValueError raised on anything else. */
  function ParseInt(t: string): Option<int> {
    var u := Trim(t);
    var negative := |u| > 0 && u[0] == '-';
    var body := if |u| > 0 && (u[0] == '-' || u[0] == '+') then u[1..] else u;
    if IsDecimal(body) then
      var magnitude: int := DecimalValue(body);
      Some(if negative then -magnitude else magnitude)
    else None
  }

  /** Python's `str(n)` for a non-negative int. */
  function NatToString(n: nat): (r: string)
    ensures |r| > 0 && forall k :: 0 <= k < |r| ==> IsDigit(r[k])
    decreases n
  {
    if n < 10 then [DigitChar(n)] else NatToString(n / 10) + [DigitChar(n % 10)]
  }

  /** Python's `str(n)` for an int. */
  function IntToString(n: int): string {
    if n < 0 then "-" + NatToString(-n) else NatToString(n)
  }

  lemma {:induction false} NatToStringValue(n: nat)
    ensures DecimalValue(NatToString(n)) == n
    decreases n
  {
    if n >= 10 {
      NatToStringValue(n / 10);
      var r := NatToString(n);
      assert r[..|r| - 1] == NatToString(n / 10);
    }
  }

  lemma StripUnchanged(s: string)
    requires |s| > 0 && !IsSpace(s[0]) && !IsSpace(s[|s| - 1])
    ensures Strip(s) == s
  {
    assert StripStart(s) == s;
    assert StripEnd(s) == s;
  }

  lemma TrimUnchanged(s: string)
    requires |s| > 0 && !IsIntSpace(s[0]) && !IsIntSpace(s[|s| - 1])
    ensures Trim(s) == s
  {
    assert TrimStart(s) == s;
    assert TrimEnd(s) == s;
  }

  /** `int()` drops a surrounding blank. */
  lemma ParseIntBlank()
    ensures ParseInt(" 5") == Some(5)
  {
    var t, five := " 5", "5";
    assert t[0] == ' ' && t[1..] == five;
    assert TrimStart(t) == TrimStart(five);
    SameTrim(t, five);
    assert IntToString(5) == five;
    IntRoundTrip(5);
  }

  /** `int()` refuses a number behind one of the separators U+001C to U+001F, although `strip()`
      drops that separator. */
  lemma ParseIntSeparator(c: char, digits: string)
    requires '\U{1c}' <= c <= '\U{1f}'
    requires |digits| > 0 && !IsIntSpace(digits[|digits| - 1])
    ensures ParseInt([c] + digits) == None
    ensures StripStart([c] + digits) == StripStart(digits)
  {
    var t := [c] + digits;
    assert t[0] == c && t[|t| - 1] == digits[|digits| - 1] && t[1..] == digits;
    assert IsSpace(c) && !IsIntSpace(c);
    TrimUnchanged(t);
  }

  /** For instance `int('\x1c5')` fails, while `'\x1c5'.strip()` is `'5'`. */
  lemma SeparatorExample()
    ensures ParseInt("\U{1c}5") == None && Strip("\U{1c}5") == "5"
  {
    var five := "5";
    assert "\U{1c}5" == ['\U{1c}'] + five;
    ParseIntSeparator('\U{1c}', five);
    StripUnchanged(five);
  }

  /** `int()` reads only what is left after dropping the white space. */
  lemma SameTrim(s: string, t: string)
    requires Trim(s) == Trim(t)
    ensures ParseInt(s) == ParseInt(t)
  {
  }

  /** `int()` on a string with no surrounding white space and a decimal body after the optional sign. */
  lemma ParseSigned(s: string, negative: bool, body: string)
    requires IsDecimal(body) && s == (if negative then "-" else "") + body
    ensures ParseInt(s) == Some(if negative then -(DecimalValue(body) as int) else DecimalValue(body))
  {
    assert s[|s| - 1] == body[|body| - 1];
    assert IsDigit(body[0]) && IsDigit(body[|body| - 1]);
    assert s[0] == if negative then '-' else body[0];
    if negative {
      assert s[1..] == body;
    } else {
      assert s == body;
    }
    TrimUnchanged(s);
    ParseBody(s, body, negative);
  }

  /** `int()` on a string without surrounding white space reads its sign, then its body. */
  lemma ParseBody(u: string, body: string, negative: bool)
    requires Trim(u) == u && |u| > 0
    requires negative <==> u[0] == '-'
    requires body == if u[0] == '-' || u[0] == '+' then u[1..] else u
    requires IsDecimal(body)
    ensures ParseInt(u) == Some(if negative then -(DecimalValue(body) as int) else DecimalValue(body))
  {
  }

  lemma DigitsAreDecimal(s: string)
    requires |s| > 0 && forall k :: 0 <= k < |s| ==> IsDigit(s[k])
    ensures IsDecimal(s)
  {
  }

  /** Reading back a printed integer gives the integer. */
  lemma IntRoundTrip(n: int)
    ensures ParseInt(IntToString(n)) == Some(n)
  {
    var m := if n < 0 then -n else n;
    NatToStringValue(m);
    DigitsAreDecimal(NatToString(m));
    ParseSigned(IntToString(n), n < 0, NatToString(m));
  }

  /** Different integers print differently. */
  lemma IntToStringInjective(a: int, b: int)
    requires IntToString(a) == IntToString(b)
    ensures a == b
  {
    IntRoundTrip(a);
    IntRoundTrip(b);
  }

  /** `math.ceil(n / 10)`: the least integer `r` with `10 * r >= n`. */
  function CeilDiv10(n: int): (r: int)
    ensures 10 * (r - 1) < n <= 10 * r
    ensures n % 10 == 0 ==> r == n / 10
  {
    -((-n) / 10)
  }

  /** Ten times a whole number of pages rounds up to exactly that number. */
  lemma CeilOfTens(pages: int)
    ensures CeilDiv10(10 * pages) == pages
  {
    var r := CeilDiv10(10 * pages);
    assert 10 * (r - 1) < 10 * pages <= 10 * r;
  }
}
