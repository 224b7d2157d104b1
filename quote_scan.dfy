/** The quote-context scanner `inText` (lib/build-xml.js:32-49). */
module QuoteScan {

  predicate IsQuote(c: char) { c == '"' || c == '\'' }

  /** The quote that is open after a scan: none, or the character that opened it. */
  datatype QuoteState = Outside | Inside(quote: char)

  /** One scan step over character `c`; `escaped` says that the character before `c` is a backslash.
      A quote opens when none is open; only the same quote, not escaped, closes it. */
  function Step(st: QuoteState, c: char, escaped: bool): QuoteState {
    if !IsQuote(c) then st
    else match st
      case Outside => Inside(c)
      case Inside(q) => if q == c && !escaped then Outside else st
  }

  /** The quote state after scanning all of `s` from the left. */
  function StateAfter(s: string): QuoteState
    decreases |s|
  {
    if |s| == 0 then Outside
    else Step(StateAfter(s[..|s| - 1]), s[|s| - 1], |s| >= 2 && s[|s| - 2] == '\\')
  }

  /** The end of `s` lies inside a quoted literal. */
  predicate InQuote(s: string) { StateAfter(s).Inside? }

  /** The scanner's `char` variable: `''` or the open quote. */
  function Render(st: QuoteState): string {
    match st
    case Outside => ""
    case Inside(q) => [q]
  }

  function Min(a: int, b: int): int { if a <= b then a else b }

  /** `string.search(/"|'/)`: the index of the first quote, or -1. */
  function SearchQuote(s: string): (r: int)
    ensures -1 <= r < |s|
    ensures r == -1 <==> forall k :: 0 <= k < |s| ==> !IsQuote(s[k])
    ensures r >= 0 ==> IsQuote(s[r]) && forall k :: 0 <= k < r ==> !IsQuote(s[k])
  {
    if |s| == 0 then -1
    else if IsQuote(s[0]) then 0
    else
      var r := SearchQuote(s[1..]);
      if r == -1 then -1 else r + 1
  }

  /** A prefix without any quote character is never inside a literal. */
  lemma {:induction false} NoQuoteOutside(s: string)
    requires forall k :: 0 <= k < |s| ==> !IsQuote(s[k])
    ensures StateAfter(s) == Outside
    decreases |s|
  {
    if |s| > 0 {
      NoQuoteOutside(s[..|s| - 1]);
    }
  }

  /** Position `i` opens a literal: a quote read while none is open. */
  ghost predicate OpensAt(s: string, i: int) {
    0 <= i < |s| && IsQuote(s[i]) && StateAfter(s[..i]) == Outside
  }

  /** Position `j` would close a literal opened by `q`: the same quote, not after a backslash. */
  ghost predicate ClosesAt(s: string, j: int, q: char) {
    0 < j < |s| && s[j] == q && s[j - 1] != '\\'
  }

  /** Nothing after the opening quote at `i` closes it. */
  ghost predicate StaysOpen(s: string, i: int)
    requires 0 <= i < |s|
  {
    forall j :: i < j < |s| ==> !ClosesAt(s, j, s[i])
  }

  /** The scan ends inside a literal opened by `q` exactly when some quote `q` was read while no
      literal was open and no later unescaped `q` closed it (the other quote kind is ignored). */
  lemma {:induction false} InsideIff(s: string, q: char)
    ensures StateAfter(s) == Inside(q) <==> exists i :: OpensAt(s, i) && s[i] == q && StaysOpen(s, i)
    decreases |s|
  {
    if |s| == 0 {
      return;
    }
    var s' := s[..|s| - 1];
    var c := s[|s| - 1];
    InsideIff(s', q);
    assert forall i :: 0 <= i < |s'| ==> s'[..i] == s[..i];
    assert forall j, c' :: 0 < j < |s'| ==> (ClosesAt(s', j, c') <==> ClosesAt(s, j, c'));
    if StateAfter(s) == Inside(q) {
      if StateAfter(s') == Outside {
        assert OpensAt(s, |s| - 1) && s[|s| - 1] == q && StaysOpen(s, |s| - 1);
      } else {
        assert StateAfter(s') == Inside(q);
        var i :| OpensAt(s', i) && s'[i] == q && StaysOpen(s', i);
        assert !ClosesAt(s, |s| - 1, q);
        assert OpensAt(s, i) && s[i] == q && StaysOpen(s, i);
      }
    }
    if exists i :: OpensAt(s, i) && s[i] == q && StaysOpen(s, i) {
      var i :| OpensAt(s, i) && s[i] == q && StaysOpen(s, i);
      if i < |s| - 1 {
        assert OpensAt(s', i) && s'[i] == q && StaysOpen(s', i);
        assert !ClosesAt(s, |s| - 1, q);
      }
    }
  }

  /** `inText(string, n)`: whether offset `n` of `string` lies inside a quoted literal. Only the
      characters before `n` are examined; past the end of the string there is nothing to read. */
  method InText(s: string, n: nat) returns (r: bool)
    ensures r == InQuote(s[..Min(n, |s|)])
  {
    var firstIndex := SearchQuote(s);
    if firstIndex == -1 || firstIndex > n {
      NoQuoteOutside(s[..Min(n, |s|)]);
      return false;
    }
    var open: string := "";
    var last: string := "";
    var i := 0;
    while i < n
      invariant 0 <= i <= n
      invariant open == Render(StateAfter(s[..Min(i, |s|)]))
      invariant last == if 0 < i <= |s| then [s[i - 1]] else ""
    {
      // string[i] is undefined past the end: no quote, and no backslash for the next step
      var c: string := if i < |s| then [s[i]] else "";
      if c == "\"" || c == "'" {
        if open == "" {
          open := c;
        } else if open == c && last != "\\" {
          open := "";
        }
      }
      if i < |s| {
        assert s[..i + 1][..i] == s[..i];
      }
      last := c;
      i := i + 1;
    }
    r := open != "";
  }
}
