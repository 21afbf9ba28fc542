/** The Python string operations the scraper relies on: `in`, `split`, `join`, `strip` and `replace`. */
module Text {
  import opened Wrappers

  /** `t` occurs in `s` starting at index `i`. */
  predicate OccursAt(s: string, t: string, i: int) {
    0 <= i && i + |t| <= |s| && forall k :: 0 <= k < |t| ==> s[i + k] == t[k]
  }

  lemma OccursAtSlice(s: string, t: string, i: int)
    requires OccursAt(s, t, i)
    ensures s[i..i + |t|] == t
  {
    forall k | 0 <= k < |t|
      ensures s[i..i + |t|][k] == t[k]
    {
      assert s[i..i + |t|][k] == s[i + k];
    }
  }

  lemma OccursShift(s: string, t: string)
    requires |s| > 0
    ensures forall j :: 1 <= j ==> (OccursAt(s, t, j) <==> OccursAt(s[1..], t, j - 1))
  {
    forall j | 1 <= j
      ensures OccursAt(s, t, j) <==> OccursAt(s[1..], t, j - 1)
    {
    }
  }

  /** The first index at which `t` occurs in `s` (Python's `s.find(t)`, with None for -1). */
  function IndexOf(s: string, t: string): (r: Option<nat>)
    ensures r.Some? ==> OccursAt(s, t, r.value)
    ensures forall j :: 0 <= j && (r.None? || j < r.value) ==> !OccursAt(s, t, j)
    decreases |s|
  {
    if |s| < |t| then None
    else if OccursAt(s, t, 0) then Some(0)
    else
      OccursShift(s, t);
      match IndexOf(s[1..], t)
      case None => None
      case Some(k) => Some(k + 1)
  }

  /** Python's `t in s` on strings. */
  predicate Contains(s: string, t: string) {
    IndexOf(s, t).Some?
  }

  lemma ContainsPrefix(s: string, t: string, n: nat)
    requires n <= |s| && Contains(s[..n], t)
    ensures Contains(s, t) && IndexOf(s, t).value <= IndexOf(s[..n], t).value
  {
    var j := IndexOf(s[..n], t).value;
    assert OccursAt(s, t, j);
  }

  /** Python's `s.split(sep)` for a non-empty separator: cut at the first occurrence, then go on after it. */
  function Split(s: string, sep: string): (r: seq<string>)
    requires |sep| > 0
    ensures |r| >= 1
    decreases |s|
  {
    match IndexOf(s, sep)
    case None => [s]
    case Some(i) => [s[..i]] + Split(s[i + |sep|..], sep)
  }

  /** Python's `sep.join(parts)`. */
  function Join(parts: seq<string>, sep: string): string
    decreases |parts|
  {
    if |parts| == 0 then ""
    else if |parts| == 1 then parts[0]
    else parts[0] + sep + Join(parts[1..], sep)
  }

  /** The last element of a non-empty sequence (Python's `xs[-1]`). */
  function Last<T>(xs: seq<T>): T
    requires |xs| > 0
  {
    xs[|xs| - 1]
  }

  lemma JoinCons(head: string, tail: seq<string>, sep: string)
    requires |tail| >= 1
    ensures Join([head] + tail, sep) == head + sep + Join(tail, sep)
  {
    assert ([head] + tail)[1..] == tail;
  }

  /** A string cut around an occurrence of `t` at `i`. */
  lemma CutAt(s: string, t: string, i: int)
    requires OccursAt(s, t, i)
    ensures s == s[..i] + t + s[i + |t|..]
  {
    OccursAtSlice(s, t, i);
    assert s == s[..i] + s[i..i + |t|] + s[i + |t|..];
  }

  /** Joining the pieces of a split with the same separator gives back the string. */
  lemma {:induction false} JoinSplit(s: string, sep: string)
    requires |sep| > 0
    ensures Join(Split(s, sep), sep) == s
    decreases |s|
  {
    var found := IndexOf(s, sep);
    if found.Some? {
      var i := found.value;
      var rest := s[i + |sep|..];
      JoinSplit(rest, sep);
      JoinCons(s[..i], Split(rest, sep), sep);
      CutAt(s, sep, i);
    }
  }

  /** No piece produced by a split contains the separator. */
  lemma {:induction false} SplitPiecesFree(s: string, sep: string)
    requires |sep| > 0
    ensures forall k :: 0 <= k < |Split(s, sep)| ==> !Contains(Split(s, sep)[k], sep)
    decreases |s|
  {
    match IndexOf(s, sep)
    case None =>
    case Some(i) =>
      var rest := s[i + |sep|..];
      SplitPiecesFree(rest, sep);
      if Contains(s[..i], sep) {
        ContainsPrefix(s, sep, i);
        assert false;
      }
      var parts := Split(s, sep);
      assert parts == [s[..i]] + Split(rest, sep);
      forall k | 0 <= k < |parts|
        ensures !Contains(parts[k], sep)
      {
        if k > 0 {
          assert parts[k] == Split(rest, sep)[k - 1];
        }
      }
  }

  /** A string without the separator splits into itself alone. */
  lemma SplitWithout(s: string, sep: string)
    requires |sep| > 0 && !Contains(s, sep)
    ensures Split(s, sep) == [s]
  {
  }

  /** `s` ends with `t` (Python's `s.endswith(t)`). */
  predicate EndsWith(s: string, t: string) {
    |t| <= |s| && s[|s| - |t|..] == t
  }

  lemma EndsWithConcat(a: string, b: string, t: string)
    requires EndsWith(b, t)
    ensures EndsWith(a + b, t)
  {
    assert (a + b)[|a + b| - |t|..] == b[|b| - |t|..];
  }

  lemma ConcatAssoc<T>(a: seq<T>, b: seq<T>, c: seq<T>)
    ensures (a + b) + c == a + (b + c)
  {
  }

  lemma LastCons<T>(head: T, tail: seq<T>)
    requires |tail| > 0
    ensures Last([head] + tail) == Last(tail)
  {
  }

  /** The last piece of a split is a suffix of the string free of the separator, and unless the
      string has no separator at all, the separator stands right before it. */
  lemma {:induction false} SplitLast(s: string, sep: string)
    requires |sep| > 0
    ensures var l := Last(Split(s, sep));
      EndsWith(s, l) && !Contains(l, sep) && (Contains(s, sep) ==> EndsWith(s, sep + l))
    decreases |s|
  {
    var found := IndexOf(s, sep);
    if found.None? {
      SplitWithout(s, sep);
      assert s[|s| - |s|..] == s;
    } else {
      var i := found.value;
      var rest := s[i + |sep|..];
      SplitLast(rest, sep);
      SplitLastStep(s, sep, i);
      var l := Last(Split(rest, sep));
      CutAt(s, sep, i);
      EndsWithConcat(s[..i] + sep, rest, l);
      if Contains(rest, sep) {
        EndsWithConcat(s[..i] + sep, rest, sep + l);
      } else {
        SplitWithout(rest, sep);
        ConcatAssoc(s[..i], sep, rest);
        assert (sep + rest)[|sep + rest| - |sep + rest|..] == sep + rest;
        EndsWithConcat(s[..i], sep + rest, sep + rest);
      }
    }
  }

  /** The last piece of a split is the last piece of what follows the first separator. */
  lemma SplitLastStep(s: string, sep: string, i: nat)
    requires |sep| > 0 && IndexOf(s, sep) == Some(i)
    ensures Last(Split(s, sep)) == Last(Split(s[i + |sep|..], sep))
  {
    var pieces := Split(s, sep);
    var rest := Split(s[i + |sep|..], sep);
    assert pieces == [s[..i]] + rest;
    LastCons(s[..i], rest);
  }

  /** The characters of a string, each as a one-character string (what `join` iterates over a str). */
  function Chars(s: string): (r: seq<string>)
    ensures |r| == |s| && forall k :: 0 <= k < |s| ==> r[k] == [s[k]]
  {
    seq(|s|, k requires 0 <= k < |s| => [s[k]])
  }

  /** A join starts with its first part and ends with its last. */
  lemma {:induction false} JoinEnds(parts: seq<string>, sep: string)
    requires |parts| >= 1
    ensures |parts[0]| <= |Join(parts, sep)| && Join(parts, sep)[..|parts[0]|] == parts[0]
    ensures EndsWith(Join(parts, sep), Last(parts))
    decreases |parts|
  {
    if |parts| > 1 {
      JoinEnds(parts[1..], sep);
      assert Last(parts[1..]) == Last(parts);
      EndsWithConcat(parts[0] + sep, Join(parts[1..], sep), Last(parts));
    }
  }

  /** Joining with a one-character separator that no part contains: the separator occurs exactly
      once between each two neighbouring parts. */
  lemma {:induction false} JoinCharCount(parts: seq<string>, c: char)
    requires |parts| >= 1
    requires forall k :: 0 <= k < |parts| ==> c !in parts[k]
    ensures multiset(Join(parts, [c]))[c] == |parts| - 1
    decreases |parts|
  {
    assert multiset(parts[0])[c] == 0;
    if |parts| > 1 {
      JoinCharCount(parts[1..], c);
      assert multiset(parts[0] + [c] + Join(parts[1..], [c])) ==
        multiset(parts[0]) + multiset([c]) + multiset(Join(parts[1..], [c]));
    }
  }

  lemma OccursChar(s: string, c: char)
    ensures forall j :: OccursAt(s, [c], j) <==> 0 <= j < |s| && s[j] == c
  {
    forall j | 0 <= j < |s|
      ensures s[j..j + 1] == [c] <==> s[j] == c
    {
      assert s[j..j + 1][0] == s[j];
    }
  }

  /** Splitting a join on a one-character separator that no part contains gives back the parts. */
  lemma {:induction false} SplitJoinChar(parts: seq<string>, c: char)
    requires |parts| >= 1
    requires forall k :: 0 <= k < |parts| ==> c !in parts[k]
    ensures Split(Join(parts, [c]), [c]) == parts
    decreases |parts|
  {
    var s := Join(parts, [c]);
    OccursChar(s, c);
    if |parts| == 1 {
      assert !Contains(s, [c]);
    } else {
      var rest := Join(parts[1..], [c]);
      var n := |parts[0]|;
      assert s == parts[0] + [c] + rest;
      assert s[n] == c;
      assert forall j :: 0 <= j < n ==> s[j] == parts[0][j];
      assert IndexOf(s, [c]) == Some(n);
      assert s[..n] == parts[0];
      assert s[n + 1..] == rest;
      SplitJoinChar(parts[1..], c);
      assert Split(s, [c]) == [parts[0]] + Split(rest, [c]);
      assert parts == [parts[0]] + parts[1..];
    }
  }

  /** Python's `str.isspace` for one character: the characters `strip()` removes. */
  predicate IsSpace(c: char) {
    c == ' ' || ('\t' <= c <= '\r') || ('\U{1c}' <= c <= '\U{1f}') || c == '\U{85}' || c == '\U{a0}' ||
    c == '\U{1680}' || ('\U{2000}' <= c <= '\U{200a}') || c == '\U{2028}' || c == '\U{2029}' ||
    c == '\U{202f}' || c == '\U{205f}' || c == '\U{3000}'
  }

  /** `s.lstrip()`: the suffix left after dropping the leading white space. */
  function StripStart(s: string): (r: string)
    ensures |r| <= |s| && r == s[|s| - |r|..]
    ensures forall k :: 0 <= k < |s| - |r| ==> IsSpace(s[k])
    ensures r == [] || !IsSpace(r[0])
    decreases |s|
  {
    if |s| > 0 && IsSpace(s[0]) then StripStart(s[1..]) else s
  }

  /** `s.rstrip()`: the prefix left after dropping the trailing white space. */
  function StripEnd(s: string): (r: string)
    ensures |r| <= |s| && r == s[..|r|]
    ensures forall k :: |r| <= k < |s| ==> IsSpace(s[k])
    ensures r == [] || !IsSpace(r[|r| - 1])
    decreases |s|
  {
    if |s| > 0 && IsSpace(s[|s| - 1]) then StripEnd(s[..|s| - 1]) else s
  }

  /** `s.strip()`: the middle of `s` left after dropping the white space at both ends. */
  function Strip(s: string): (r: string)
    ensures r == [] || (!IsSpace(r[0]) && !IsSpace(r[|r| - 1]))
    ensures exists i :: StrippedAt(s, r, i)
  {
    StripParts(s);
    StripEnd(StripStart(s))
  }

  lemma StripParts(s: string)
    ensures StrippedAt(s, StripEnd(StripStart(s)), |s| - |StripStart(s)|)
  {
    var t := StripStart(s);
    var r := StripEnd(t);
    var i := |s| - |t|;
    StrippedFrom(s, t, r, i);
  }

  /** Dropping white space before `i`, then white space after `r` in what is left, strips `s` to
      `r` at `i`. */
  lemma StrippedFrom(s: string, t: string, r: string, i: int)
    requires 0 <= i <= |s| && t == s[i..]
    requires forall k :: 0 <= k < i ==> IsSpace(s[k])
    requires |r| <= |t| && r == t[..|r|]
    requires forall j :: |r| <= j < |t| ==> IsSpace(t[j])
    ensures StrippedAt(s, r, i)
  {
    PrefixOfSuffix(s, t, r, i);
    SpaceAfter(s, t, i, |r|);
  }

  /** A prefix of the suffix of `s` from `i` is the slice of `s` from `i`. */
  lemma PrefixOfSuffix<T>(s: seq<T>, t: seq<T>, r: seq<T>, i: int)
    requires 0 <= i <= |s| && t == s[i..]
    requires |r| <= |t| && r == t[..|r|]
    ensures i + |r| <= |s| && r == s[i..i + |r|]
  {
  }

  /** White space at the end of the suffix of `s` from `i` is white space at the end of `s`. */
  lemma SpaceAfter(s: string, t: string, i: int, n: nat)
    requires 0 <= i <= |s| && t == s[i..]
    requires forall j :: n <= j < |t| ==> IsSpace(t[j])
    ensures forall k :: i + n <= k < |s| ==> IsSpace(s[k])
  {
    forall k | i + n <= k < |s|
      ensures IsSpace(s[k])
    {
      assert t[k - i] == s[k];
    }
  }

  /** `r` is the part of `s` from position `i`, and everything of `s` before and after it is white
      space. */
  predicate StrippedAt(s: string, r: string, i: int) {
    0 <= i && i + |r| <= |s| && r == s[i..i + |r|] &&
    (forall k :: 0 <= k < i ==> IsSpace(s[k])) &&
    (forall k :: i + |r| <= k < |s| ==> IsSpace(s[k]))
  }

  /** `s.replace(c, '')` for one character `c`: every `c` removed, everything else kept in order. */
  function RemoveChar(s: string, c: char): (r: string)
    ensures c !in r
    ensures |r| <= |s|
    decreases |s|
  {
    if s == [] then []
    else (if s[0] == c then [] else [s[0]]) + RemoveChar(s[1..], c)
  }

  /** Removing a character keeps every other character as often as it occurs, and shortens the
      text by the number of times the removed one occurs. */
  lemma {:induction false} RemoveCharCounts(s: string, c: char)
    ensures forall d :: d != c ==> multiset(RemoveChar(s, c))[d] == multiset(s)[d]
    ensures |RemoveChar(s, c)| == |s| - multiset(s)[c]
    decreases |s|
  {
    if s != [] {
      RemoveCharCounts(s[1..], c);
      assert s == [s[0]] + s[1..];
      assert multiset(s) == multiset([s[0]]) + multiset(s[1..]);
    }
  }

  /** Removing a character works piece by piece: the order of what is kept is the order in `s`. */
  lemma {:induction false} RemoveCharConcat(a: string, b: string, c: char)
    ensures RemoveChar(a + b, c) == RemoveChar(a, c) + RemoveChar(b, c)
    decreases |a|
  {
    if a != [] {
      var ab := a + b;
      var kept: string := if a[0] == c then [] else [a[0]];
      assert ab[0] == a[0] && ab[1..] == a[1..] + b;
      assert RemoveChar(ab, c) == kept + RemoveChar(a[1..] + b, c);
      RemoveCharConcat(a[1..], b, c);
      assert RemoveChar(a, c) == kept + RemoveChar(a[1..], c);
      assert kept + (RemoveChar(a[1..], c) + RemoveChar(b, c)) == (kept + RemoveChar(a[1..], c)) + RemoveChar(b, c);
    } else {
      assert a + b == b;
    }
  }

  /** A text without the character is left as it is. */
  lemma {:induction false} RemoveCharAbsent(s: string, c: char)
    requires c !in s
    ensures RemoveChar(s, c) == s
    decreases |s|
  {
    if s != [] {
      assert s[0] != c && c !in s[1..];
      RemoveCharAbsent(s[1..], c);
    }
  }
}
