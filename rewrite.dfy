/** The binding rewriter `replaceString` (lib/build-xml.js:58-67). The outer pattern
    `/\{\{[^}]+\}\}/g` finds each `{{…}}` expression; inside it the pattern
    `/[^\.\w'"]([a-z\_\$][\w\d\._\$]*)/ig` finds each token together with the character in front
    of it (the lead), and the callback either keeps the match or returns `lead + prefix + '.' + word`.
    Both replacements keep every input character and only insert `prefix + '.'` after a lead, so the
    model records, per character, whether an insertion follows it (`TextMarks`), and builds the
    output by inserting after the marked characters (`Weave`). */
module Rewrite {
  import opened Errors
  import QuoteScan

  /** `\w` */
  predicate IsWordChar(c: char) {
    'a' <= c <= 'z' || 'A' <= c <= 'Z' || '0' <= c <= '9' || c == '_'
  }

  /** `[^\.\w'"]`: a character that may stand in front of a bindable token. */
  predicate IsLead(c: char) {
    c != '.' && !IsWordChar(c) && c != '\'' && c != '"'
  }

  /** `[a-z\_\$]` under the `i` flag: the first character of a token. */
  predicate IsTokenStart(c: char) {
    'a' <= c <= 'z' || 'A' <= c <= 'Z' || c == '_' || c == '$'
  }

  /** `[\w\d\._\$]`: the later characters of a token. */
  predicate IsTokenChar(c: char) {
    IsWordChar(c) || c == '.' || c == '$'
  }

  /** `s[a..a + len]` is one match of the outer pattern: `{{`, one or more characters other
      than `}`, then `}}`. */
  ghost predicate MustacheSpan(s: string, a: nat, len: nat) {
    a + len <= |s| && len >= 5 && s[a] == '{' && s[a + 1] == '{' &&
    s[a + len - 2] == '}' && s[a + len - 1] == '}' &&
    forall k :: a + 2 <= k < a + len - 2 ==> s[k] != '}'
  }

  /** The end of the run of characters other than `}` that starts at `j`. */
  function BodyEnd(s: string, j: nat): (e: nat)
    requires j <= |s|
    ensures j <= e <= |s|
    ensures forall k :: j <= k < e ==> s[k] != '}'
    ensures e < |s| ==> s[e] == '}'
    decreases |s| - j
  {
    if j == |s| || s[j] == '}' then j else BodyEnd(s, j + 1)
  }

  /** The length of the outer-pattern match that starts at offset `i`, if there is one. */
  function MustacheAt(s: string, i: nat): (r: Option<nat>)
    requires i <= |s|
    ensures r.Some? ==> MustacheSpan(s, i, r.value)
    ensures r.None? ==> forall len: nat :: !MustacheSpan(s, i, len)
  {
    if i + 1 < |s| && s[i] == '{' && s[i + 1] == '{' then
      var e := BodyEnd(s, i + 2);
      if e > i + 2 && e + 1 < |s| && s[e + 1] == '}' then
        Some(e + 2 - i)
      else
        assert forall len: nat :: MustacheSpan(s, i, len) ==> i + len - 2 == e;
        None
    else
      None
  }

  /** The end of the run of token characters that starts at `j`: a token is maximal. */
  function TokenEnd(s: string, j: nat): (e: nat)
    requires j <= |s|
    ensures j <= e <= |s|
    ensures forall k :: j <= k < e ==> IsTokenChar(s[k])
    ensures e < |s| ==> !IsTokenChar(s[e])
    decreases |s| - j
  {
    if j == |s| || !IsTokenChar(s[j]) then j else TokenEnd(s, j + 1)
  }

  /** `word.match(/^\w+/)[0]` when the match exists: the leading run of word characters. */
  function LeadingWord(t: string): (w: string)
    ensures |w| <= |t| && w == t[..|w|]
    ensures forall k :: 0 <= k < |w| ==> IsWordChar(w[k])
    ensures |w| < |t| ==> !IsWordChar(t[|w|])
  {
    if |t| > 0 && IsWordChar(t[0]) then [t[0]] + LeadingWord(t[1..]) else ""
  }

  function Falses(n: nat): (r: seq<bool>)
    ensures |r| == n && forall k :: 0 <= k < n ==> !r[k]
  {
    if n == 0 then [] else [false] + Falses(n - 1)
  }

  /** The decisions of the inner replace on the expression `m` from offset `i` on: one flag per
      character, set on the lead of every token that gets qualified. Matches do not overlap: the
      scan resumes after the token. A token starting with `$` has no leading word run, and the
      callback throws before it looks at `ignores`. */
  function ExprMarks(m: string, i: nat, ignores: set<string>): (r: Result<seq<bool>>)
    requires i <= |m|
    ensures r.Ok? ==> |r.value| == |m| - i
    decreases |m| - i
  {
    if i == |m| then Ok([])
    else if i + 1 < |m| && IsLead(m[i]) && IsTokenStart(m[i + 1]) then
      var e := TokenEnd(m, i + 1);
      var word := m[i + 1..e];
      if word[0] == '$' then Err(NullWordMatch(word))
      else
        var rest :- ExprMarks(m, e, ignores);
        var qualify := LeadingWord(word) !in ignores && !QuoteScan.InQuote(m[..i]);
        Ok([qualify] + Falses(e - i - 1) + rest)
    else
      var rest :- ExprMarks(m, i + 1, ignores);
      Ok([false] + rest)
  }

  /** The decisions of the outer replace on `s` from offset `i` on: characters outside an
      expression are never marked; each expression is handed to the inner replace whole. */
  function TextMarks(s: string, i: nat, ignores: set<string>): (r: Result<seq<bool>>)
    requires i <= |s|
    ensures r.Ok? ==> |r.value| == |s| - i
    decreases |s| - i
  {
    if i == |s| then Ok([])
    else match MustacheAt(s, i)
      case Some(len) =>
        var inner :- ExprMarks(s[i..i + len], 0, ignores);
        var rest :- TextMarks(s, i + len, ignores);
        Ok(inner + rest)
      case None =>
        var rest :- TextMarks(s, i + 1, ignores);
        Ok([false] + rest)
  }

  /** `s` with `ins` inserted after every marked character. */
  function Weave(s: string, marks: seq<bool>, ins: string): string
    requires |marks| == |s|
  {
    if |s| == 0 then ""
    else [s[0]] + (if marks[0] then ins else "") + Weave(s[1..], marks[1..], ins)
  }

  /** The text `s` that `t` is `s` woven with `ins` after its marked characters: one character
      per mark, each marked one followed by exactly `ins`, and nothing left over. `None` when
      `t` is not of that form. */
  function Erase(t: string, marks: seq<bool>, ins: string): Option<string>
    decreases |marks|
  {
    if |marks| == 0 then (if |t| == 0 then Some("") else None)
    else if |t| == 0 then None
    else
      var after := if marks[0] then ins else "";
      if 1 + |after| <= |t| && t[1..1 + |after|] == after then
        match Erase(t[1 + |after|..], marks[1..], ins)
        case Some(rest) => Some([t[0]] + rest)
        case None => None
      else None
  }

  /** `replaceString(str, prefix, ignores)`. It fails exactly when the scan meets a token that
      starts with `$`; otherwise it only inserts the scope: the result is `s` with `prefix + '.'`
      after each marked character and nothing else (see `WeaveErase` for uniqueness). */
  function ReplaceString(s: string, prefix: string, ignores: set<string>): (r: Result<string>)
    ensures r.Ok? <==> TextMarks(s, 0, ignores).Ok?
    ensures r.Ok? ==> Erase(r.value, TextMarks(s, 0, ignores).value, prefix + ".") == Some(s)
  {
    var marks :- TextMarks(s, 0, ignores);
    EraseWeave(s, marks, prefix + ".");
    Ok(Weave(s, marks, prefix + "."))
  }

  // ---------------------------------------------------------------------------------------
  // Properties

  /** Erasing the insertions recovers the original text. */
  lemma {:induction false} EraseWeave(s: string, marks: seq<bool>, ins: string)
    requires |marks| == |s|
    ensures Erase(Weave(s, marks, ins), marks, ins) == Some(s)
    decreases |s|
  {
    if |s| > 0 {
      EraseWeave(s[1..], marks[1..], ins);
      var t := Weave(s, marks, ins);
      var after := if marks[0] then ins else "";
      assert t == [s[0]] + after + Weave(s[1..], marks[1..], ins);
      assert t[1..1 + |after|] == after;
      assert t[1 + |after|..] == Weave(s[1..], marks[1..], ins);
      assert [s[0]] + s[1..] == s;
    }
  }

  /** The weave is the only text that erases to `s`: a text of that form is `s` with `ins` after
      each marked character, and nothing else. */
  lemma {:induction false} WeaveErase(t: string, marks: seq<bool>, ins: string, s: string)
    requires Erase(t, marks, ins) == Some(s)
    ensures |marks| == |s| && t == Weave(s, marks, ins)
    decreases |marks|
  {
    if |marks| > 0 {
      var after := if marks[0] then ins else "";
      var u := t[1 + |after|..];
      assert 1 + |after| <= |t| && t[1..1 + |after|] == after && Erase(u, marks[1..], ins).Some?;
      var rest := Erase(u, marks[1..], ins).value;
      assert s == [t[0]] + rest;
      WeaveErase(u, marks[1..], ins, rest);
      assert t == [t[0]] + after + u by {
        assert t == [t[0]] + t[1..1 + |after|] + u;
      }
      assert s[0] == t[0] && s[1..] == rest;
    }
  }

  /** A successful rewrite is determined by the marks: any text that erases to `s` under them is
      the rewrite itself. */
  lemma ReplaceStringUnique(s: string, prefix: string, ignores: set<string>, t: string)
    requires TextMarks(s, 0, ignores).Ok?
    requires Erase(t, TextMarks(s, 0, ignores).value, prefix + ".") == Some(s)
    ensures ReplaceString(s, prefix, ignores) == Ok(t)
  {
    WeaveErase(t, TextMarks(s, 0, ignores).value, prefix + ".", s);
  }

  lemma {:induction false} WeaveUnmarked(s: string, ins: string)
    ensures Weave(s, Falses(|s|), ins) == s
    decreases |s|
  {
    if |s| > 0 {
      assert Falses(|s|)[1..] == Falses(|s| - 1);
      WeaveUnmarked(s[1..], ins);
    }
  }

  /** Insertion works piece by piece. */
  lemma {:induction false} WeaveAppend(s: string, t: string, ms: seq<bool>, mt: seq<bool>, ins: string)
    requires |ms| == |s| && |mt| == |t|
    ensures Weave(s + t, ms + mt, ins) == Weave(s, ms, ins) + Weave(t, mt, ins)
    decreases |s|
  {
    if |s| > 0 {
      assert (s + t)[1..] == s[1..] + t;
      assert (ms + mt)[1..] == ms[1..] + mt;
      WeaveAppend(s[1..], t, ms[1..], mt, ins);
    } else {
      assert s + t == t && ms + mt == mt;
    }
  }

  /** The outer scan walks over text in which no expression starts without marking anything. */
  lemma {:induction false} ScanPlain(s: string, i: nat, j: nat, ignores: set<string>)
    requires i <= j <= |s|
    requires forall a :: i <= a < j ==> MustacheAt(s, a).None?
    ensures TextMarks(s, i, ignores) == Prepend(Falses(j - i), TextMarks(s, j, ignores))
    decreases j - i
  {
    if i == j {
      PrependEmpty(TextMarks(s, j, ignores));
    } else {
      ScanPlain(s, i + 1, j, ignores);
      var r := TextMarks(s, j, ignores);
      if r.Ok? {
        assert [false] + (Falses(j - i - 1) + r.value) == Falses(j - i) + r.value;
      }
    }
  }

  /** A text without any `{{…}}` expression is returned unchanged. */
  lemma ReplaceStringWithoutMustache(s: string, prefix: string, ignores: set<string>)
    requires forall a: nat, len: nat :: !MustacheSpan(s, a, len)
    ensures ReplaceString(s, prefix, ignores) == Ok(s)
  {
    ScanPlain(s, 0, |s|, ignores);
    assert Falses(|s|) + [] == Falses(|s|);
    WeaveUnmarked(s, prefix + ".");
  }

  /** The token that starts at `j`. */
  function TokenAt(m: string, j: nat): string
    requires j <= |m|
  {
    m[j..TokenEnd(m, j)]
  }

  /** Offset `j` of the expression `m` is a lead, followed by a token that starts with a word
      character, whose leading word is not ignored, and the lead is outside every quoted literal. */
  ghost predicate QualifiedLead(m: string, j: nat, ignores: set<string>) {
    j + 1 < |m| && IsLead(m[j]) && IsTokenStart(m[j + 1]) && m[j + 1] != '$' &&
    LeadingWord(TokenAt(m, j + 1)) !in ignores && !QuoteScan.InQuote(m[..j])
  }

  /** Every qualified token stands behind a lead, starts with a word character, has a leading
      word run outside `ignores`, and its lead is not inside a quoted literal of the expression. */
  lemma {:induction false} ExprMarkSound(m: string, i: nat, ignores: set<string>, k: nat)
    requires i <= k < |m|
    requires ExprMarks(m, i, ignores).Ok? && ExprMarks(m, i, ignores).value[k - i]
    ensures QualifiedLead(m, k, ignores)
    decreases |m| - i
  {
    if i + 1 < |m| && IsLead(m[i]) && IsTokenStart(m[i + 1]) {
      var e := TokenEnd(m, i + 1);
      if k >= e {
        var rest := ExprMarks(m, e, ignores).value;
        assert ExprMarks(m, i, ignores).value[k - i] == rest[k - e];
        ExprMarkSound(m, e, ignores, k);
      }
    } else {
      ExprMarkSound(m, i + 1, ignores, k);
    }
  }

  /** Every lead that is not itself a token character (every lead but `$`) is reached by the
      scan, so its token is qualified when the word is not ignored and the lead is unquoted. */
  lemma {:induction false} ExprMarkComplete(m: string, i: nat, ignores: set<string>, k: nat)
    requires i <= k && k + 1 < |m|
    requires IsLead(m[k]) && !IsTokenChar(m[k]) && IsTokenStart(m[k + 1])
    requires LeadingWord(TokenAt(m, k + 1)) !in ignores && !QuoteScan.InQuote(m[..k])
    requires ExprMarks(m, i, ignores).Ok?
    ensures ExprMarks(m, i, ignores).value[k - i]
    decreases |m| - i
  {
    if i == k {
      assert m[k + 1..TokenEnd(m, k + 1)] == TokenAt(m, k + 1);
    } else {
      var j := ExprNext(m, i);
      assert j <= k;
      ExprMarksSkip(m, i, ignores, k);
      ExprMarkComplete(m, j, ignores, k);
    }
  }

  /** Where the inner scan goes on after offset `i`: past the token behind a lead at `i`, or
      one character on. */
  function ExprNext(m: string, i: nat): (j: nat)
    requires i < |m|
    ensures i < j <= |m|
    ensures j > i + 1 ==> IsLead(m[i]) && forall c :: i + 1 <= c < j ==> IsTokenChar(m[c])
  {
    if i + 1 < |m| && IsLead(m[i]) && IsTokenStart(m[i + 1]) then TokenEnd(m, i + 1) else i + 1
  }

  /** The inner marks from `ExprNext(m, i)` on are the marks the scan from `i` gives them. */
  lemma ExprMarksSkip(m: string, i: nat, ignores: set<string>, k: nat)
    requires i < |m| && ExprNext(m, i) <= k < |m| && ExprMarks(m, i, ignores).Ok?
    ensures ExprMarks(m, ExprNext(m, i), ignores).Ok?
    ensures ExprMarks(m, i, ignores).value[k - i] == ExprMarks(m, ExprNext(m, i), ignores).value[k - ExprNext(m, i)]
  {
  }

  /** A reached lead followed by `$` makes the rewrite throw. */
  lemma {:induction false} ExprDollarFails(m: string, i: nat, ignores: set<string>, k: nat)
    requires i <= k && k + 1 < |m|
    requires IsLead(m[k]) && !IsTokenChar(m[k]) && m[k + 1] == '$'
    ensures ExprMarks(m, i, ignores).Err?
    decreases |m| - i
  {
    if i < k {
      if i + 1 < |m| && IsLead(m[i]) && IsTokenStart(m[i + 1]) {
        var e := TokenEnd(m, i + 1);
        if m[i + 1] != '$' && e < k {
          ExprDollarFails(m, e, ignores, k);
        } else if m[i + 1] != '$' {
          assert e == k;
          ExprDollarFails(m, e, ignores, k);
        }
      } else {
        ExprDollarFails(m, i + 1, ignores, k);
      }
    }
  }

  /** Conversely, the rewrite only throws on a lead followed by `$`. */
  lemma {:induction false} ExprFailsOnDollar(m: string, i: nat, ignores: set<string>)
    requires i <= |m|
    requires ExprMarks(m, i, ignores).Err?
    ensures exists k :: i <= k && k + 1 < |m| && IsLead(m[k]) && m[k + 1] == '$'
    decreases |m| - i
  {
    if i + 1 < |m| && IsLead(m[i]) && IsTokenStart(m[i + 1]) {
      if m[i + 1] != '$' {
        ExprFailsOnDollar(m, TokenEnd(m, i + 1), ignores);
      }
    } else if i < |m| {
      ExprFailsOnDollar(m, i + 1, ignores);
    }
  }

  lemma SliceOfSlice(s: string, a: nat, b: nat, x: nat, y: nat)
    requires a <= b <= |s| && x <= y <= b - a
    ensures s[a..b][x..y] == s[a + x..a + y]
  {
    var l, r := s[a..b][x..y], s[a + x..a + y];
    forall i | 0 <= i < |l|
      ensures l[i] == r[i]
    {
    }
  }

  /** Inside `s[a..b]`, a token that stops before the last character is the token of `s`. */
  lemma TokenInSlice(s: string, a: nat, b: nat, j: nat)
    requires a + j < b <= |s| && !IsTokenChar(s[b - 1])
    ensures a + TokenEnd(s[a..b], j) == TokenEnd(s, a + j) < b
    ensures TokenAt(s[a..b], j) == TokenAt(s, a + j)
  {
    SliceOfSlice(s, a, b, j, TokenEnd(s[a..b], j));
  }

  /** Offset `k` of `s` is a lead inside the `{{…}}` expression `s[a..a + len]`; its token ends
      inside that expression, starts with a word character and has a leading word outside
      `ignores`; and the lead is outside every quoted literal of the expression. */
  ghost predicate QualifiedInText(s: string, a: nat, len: nat, k: nat, ignores: set<string>) {
    a <= k && MustacheSpan(s, a, len) && k + 1 < |s| && TokenEnd(s, k + 1) < a + len &&
    IsLead(s[k]) && IsTokenStart(s[k + 1]) && s[k + 1] != '$' &&
    LeadingWord(TokenAt(s, k + 1)) !in ignores && !QuoteScan.InQuote(s[a..k])
  }

  /** A qualified lead of the expression `s[a..a + len]`, read in the whole text. */
  lemma QualifiedLeadInText(s: string, a: nat, len: nat, k: nat, ignores: set<string>)
    requires a <= k && MustacheSpan(s, a, len)
    requires QualifiedLead(s[a..a + len], k - a, ignores)
    ensures QualifiedInText(s, a, len, k, ignores)
  {
    var m := s[a..a + len];
    TokenInSlice(s, a, a + len, k - a + 1);
    var w := TokenAt(m, k - a + 1);
    assert w == TokenAt(s, k + 1);
    SliceOfSlice(s, a, a + len, 0, k - a);
    assert m[..k - a] == s[a..k];
  }

  /** Where the outer scan goes on after offset `i`: past the match at `i`, or one character on. */
  function NextStart(s: string, i: nat): (j: nat)
    requires i < |s|
    ensures i < j <= |s|
    ensures MustacheAt(s, i).Some? ==> j == i + MustacheAt(s, i).value
    ensures MustacheAt(s, i).None? ==> j == i + 1
  {
    match MustacheAt(s, i)
    case Some(len) => i + len
    case None => i + 1
  }

  /** The outer scan started at `i` restarts at `a`: `a` is `i`, or the scan restarts at `a`
      from where it goes on after `i`. */
  ghost predicate Reaches(s: string, i: nat, a: nat)
    requires i <= |s|
    decreases |s| - i
  {
    i <= a && (i == a || (i < |s| && Reaches(s, NextStart(s, i), a)))
  }

  /** The marks from `NextStart(s, i)` on are the marks the scan from `i` gives those characters;
      a character the scan steps over without a match is not marked. */
  lemma TextMarksSkip(s: string, i: nat, ignores: set<string>, k: nat)
    requires i <= k < |s| && TextMarks(s, i, ignores).Ok?
    ensures MustacheAt(s, i).None? ==> !TextMarks(s, i, ignores).value[0]
    ensures NextStart(s, i) <= k ==>
              TextMarks(s, NextStart(s, i), ignores).Ok? &&
              TextMarks(s, i, ignores).value[k - i] == TextMarks(s, NextStart(s, i), ignores).value[k - NextStart(s, i)]
  {
  }

  /** A mark inside the match at `i` is a mark of the inner scan of that match. */
  lemma MarkInExpression(s: string, i: nat, ignores: set<string>, k: nat)
    requires i <= k < |s| && MustacheAt(s, i).Some? && k < i + MustacheAt(s, i).value
    requires TextMarks(s, i, ignores).Ok? && TextMarks(s, i, ignores).value[k - i]
    ensures QualifiedInText(s, i, MustacheAt(s, i).value, k, ignores)
  {
    var len := MustacheAt(s, i).value;
    var inner := ExprMarks(s[i..i + len], 0, ignores).value;
    assert TextMarks(s, i, ignores).value[k - i] == inner[k - i];
    ExprMarkSound(s[i..i + len], 0, ignores, k - i);
    QualifiedLeadInText(s, i, len, k, ignores);
  }

  /** Every insertion the rewrite makes sits inside a `{{…}}` expression that the scan matched,
      right after a lead that is followed by a token whose leading word is not ignored and whose
      lead is not inside a quoted literal of that expression. In particular text outside every
      expression is never changed. */
  lemma {:induction false} TextMarkSound(s: string, i: nat, ignores: set<string>, k: nat)
    requires i <= k < |s|
    requires TextMarks(s, i, ignores).Ok? && TextMarks(s, i, ignores).value[k - i]
    ensures exists a: nat, len: nat :: Reaches(s, i, a) && QualifiedInText(s, a, len, k, ignores)
    decreases |s| - i
  {
    TextMarksSkip(s, i, ignores, k);
    var j := NextStart(s, i);
    if MustacheAt(s, i).Some? && k < j {
      MarkInExpression(s, i, ignores, k);
      assert Reaches(s, i, i);
    } else {
      TextMarkSound(s, j, ignores, k);
      var a: nat, l: nat :| Reaches(s, j, a) && QualifiedInText(s, a, l, k, ignores);
      assert Reaches(s, i, a);
    }
  }

  /** A text that is exactly one expression is rewritten as the inner replace decides. */
  lemma SingleExpression(s: string, ignores: set<string>)
    requires MustacheSpan(s, 0, |s|)
    ensures TextMarks(s, 0, ignores) == ExprMarks(s, 0, ignores)
  {
    var len := MustacheAt(s, 0).value;
    assert len == |s|;
    assert s[0..|s|] == s;
    if ExprMarks(s, 0, ignores).Ok? {
      assert ExprMarks(s, 0, ignores).value + [] == ExprMarks(s, 0, ignores).value;
    }
  }

  /** There is at most one match of the outer pattern at a given offset. */
  lemma MustacheAtSpan(s: string, a: nat, len: nat)
    requires MustacheSpan(s, a, len)
    ensures MustacheAt(s, a) == Some(len)
  {
  }

  /** Conversely to `TextMarkSound`, at the level of a whole text: in every expression the scan
      reaches from `i`, every lead (other than `$`) of a token whose leading word is not ignored
      and which is not inside a quoted literal of that expression gets `prefix + '.'` inserted
      after it. */
  lemma {:induction false} TextMarkComplete(s: string, i: nat, a: nat, len: nat, k: nat, ignores: set<string>)
    requires i <= |s| && Reaches(s, i, a) && MustacheSpan(s, a, len)
    requires a <= k < a + len && !IsTokenChar(s[k]) && QualifiedLead(s[a..a + len], k - a, ignores)
    requires TextMarks(s, i, ignores).Ok?
    ensures TextMarks(s, i, ignores).value[k - i]
    decreases |s| - i
  {
    if i == a {
      MustacheAtSpan(s, a, len);
      var m := s[a..a + len];
      var inner := ExprMarks(m, 0, ignores).value;
      var rest := TextMarks(s, a + len, ignores).value;
      assert TextMarks(s, a, ignores).value == inner + rest;
      ExprMarkComplete(m, 0, ignores, k - a);
    } else {
      TextMarksSkip(s, i, ignores, k);
      TextMarkComplete(s, NextStart(s, i), a, len, k, ignores);
    }
  }

  /** Whether an expression starts at an offset depends only on the text from there on. */
  lemma SpanShift(p: string, y: string, c: nat, len: nat)
    requires c <= |y|
    ensures MustacheSpan(p + y, |p| + c, len) <==> MustacheSpan(y, c, len)
  {
    var s := p + y;
    if MustacheSpan(y, c, len) {
      forall k | |p| + c + 2 <= k < |p| + c + len - 2
        ensures s[k] != '}'
      {
        assert s[k] == y[k - |p|];
      }
    }
    if MustacheSpan(s, |p| + c, len) {
      forall k | c + 2 <= k < c + len - 2
        ensures y[k] != '}'
      {
        assert s[|p| + k] == y[k];
      }
    }
  }

  lemma MustacheAtShift(p: string, y: string, c: nat)
    requires c <= |y|
    ensures MustacheAt(p + y, |p| + c) == MustacheAt(y, c)
  {
    forall len: nat
      ensures MustacheSpan(p + y, |p| + c, len) <==> MustacheSpan(y, c, len)
    {
      SpanShift(p, y, c, len);
    }
    forall len: nat | MustacheSpan(y, c, len)
      ensures MustacheAt(y, c) == Some(len)
    {
      MustacheAtSpan(y, c, len);
    }
  }

  /** The outer scan from an offset depends only on the text from there on. */
  lemma {:induction false} TextMarksShift(p: string, y: string, i: nat, ignores: set<string>)
    requires i <= |y|
    ensures TextMarks(p + y, |p| + i, ignores) == TextMarks(y, i, ignores)
    decreases |y| - i
  {
    if i < |y| {
      MustacheAtShift(p, y, i);
      match MustacheAt(y, i)
      case Some(len) =>
        assert (p + y)[|p| + i..|p| + i + len] == y[i..i + len];
        TextMarksShift(p, y, i + len, ignores);
      case None =>
        TextMarksShift(p, y, i + 1, ignores);
    }
  }

  /** The outer scan passes over a prefix without `{` without marking any of it. */
  lemma ScanPlainPrefix(s: string, a: nat, ignores: set<string>)
    requires a <= |s| && '{' !in s[..a]
    ensures TextMarks(s, 0, ignores) == Prepend(Falses(a), TextMarks(s, a, ignores))
  {
    forall c | 0 <= c < a
      ensures MustacheAt(s, c).None?
    {
      assert s[c] == s[..a][c];
    }
    ScanPlain(s, 0, a, ignores);
  }

  /** An expression placed in a text is found by the outer pattern where it was placed. */
  lemma ExpressionAt(x: string, e: string, y: string)
    requires MustacheSpan(e, 0, |e|)
    ensures MustacheAt(x + e + y, |x|) == Some(|e|) && (x + e + y)[|x|..|x| + |e|] == e
  {
    var s := x + e + y;
    assert MustacheSpan(s, |x|, |e|) by {
      assert forall k :: 0 <= k < |e| ==> s[|x| + k] == e[k];
    }
    MustacheAtSpan(s, |x|, |e|);
    assert s[|x|..|x| + |e|] == e;
  }

  /** One step of the outer scan over an expression `e` that starts at `a` and ends at `b`. */
  lemma ScanExpression(s: string, a: nat, b: nat, e: string, ignores: set<string>)
    requires b == a + |e| <= |s| && MustacheAt(s, a) == Some(|e|) && s[a..b] == e && ExprMarks(e, 0, ignores).Ok?
    ensures TextMarks(s, a, ignores) == Prepend(ExprMarks(e, 0, ignores).value, TextMarks(s, b, ignores))
  {
  }

  /** After a prefix `s`, the outer scan goes on over `y` as if `y` stood alone. */
  lemma TextMarksRest(s: string, y: string, ignores: set<string>)
    ensures TextMarks(s + y, |s|, ignores) == TextMarks(y, 0, ignores)
  {
    TextMarksShift(s, y, 0, ignores);
  }

  /** From an expression `e` placed in a text on, the scan marks `e` as the inner scan decides
      and scans the rest on its own. */
  lemma ScanFromExpression(x: string, e: string, y: string, ignores: set<string>)
    requires MustacheSpan(e, 0, |e|) && ExprMarks(e, 0, ignores).Ok?
    ensures TextMarks(x + e + y, |x|, ignores) == Prepend(ExprMarks(e, 0, ignores).value, TextMarks(y, 0, ignores))
  {
    ExpressionAt(x, e, y);
    ScanExpression(x + e + y, |x|, |x + e|, e, ignores);
    TextMarksRest(x + e, y, ignores);
  }

  /** The outer scan of `x e y`, where `x` holds no `{` and `e` is one expression: nothing in `x`
      is marked, `e` is marked as the inner scan decides, and `y` is scanned on its own. */
  lemma ScanExpressionThenRest(x: string, e: string, y: string, ignores: set<string>)
    requires '{' !in x && MustacheSpan(e, 0, |e|) && ExprMarks(e, 0, ignores).Ok?
    ensures TextMarks(x + e + y, 0, ignores) ==
            Prepend(Falses(|x|) + ExprMarks(e, 0, ignores).value, TextMarks(y, 0, ignores))
  {
    assert (x + e + y)[..|x|] == x;
    ScanPlainPrefix(x + e + y, |x|, ignores);
    ScanFromExpression(x, e, y, ignores);
    PrependPrepend(Falses(|x|), ExprMarks(e, 0, ignores).value, TextMarks(y, 0, ignores));
  }

  /** A binding followed by more text: `x{{w}}y`, where `x` holds no `{`, becomes `x{{prefix.w}}`
      (or `x{{w}}` when the leading word of `w` is ignored) followed by the rewrite of `y`, and
      fails exactly when the rewrite of `y` fails. */
  lemma ExpressionThenRest(x: string, w: string, y: string, prefix: string, ignores: set<string>)
    requires '{' !in x && PlainToken(w)
    ensures var t := if LeadingWord(w) in ignores then "{{" + w + "}}" else "{{" + prefix + "." + w + "}}";
            var rest := ReplaceString(y, prefix, ignores);
            ReplaceString(x + ("{{" + w + "}}") + y, prefix, ignores) == if rest.Ok? then Ok(x + t + rest.value) else rest
  {
    var e := "{{" + w + "}}";
    var q := LeadingWord(w) !in ignores;
    var em := [false, q] + Falses(|w| + 2);
    var ins := prefix + ".";
    TokenMustache(w);
    TokenExprMarks(w, ignores, q);
    ScanExpressionThenRest(x, e, y, ignores);
    var r := TextMarks(y, 0, ignores);
    if r.Ok? {
      WeaveAppend(x + e, y, Falses(|x|) + em, r.value, ins);
      WeaveAppend(x, e, Falses(|x|), em, ins);
      WeaveUnmarked(x, ins);
      TokenWeave(w, prefix, q);
    }
  }

  /** A binding in running text: `x{{w}}y` becomes `x{{prefix.w}}y` when `x` and `y` hold no
      expression, and stays as it is when the leading word of `w` is ignored. */
  lemma ExpressionInText(x: string, w: string, y: string, prefix: string, ignores: set<string>)
    requires '{' !in x && '{' !in y && PlainToken(w)
    ensures ReplaceString(x + ("{{" + w + "}}") + y, prefix, ignores) ==
            Ok(x + (if LeadingWord(w) in ignores then "{{" + w + "}}" else "{{" + prefix + "." + w + "}}") + y)
  {
    forall a: nat, len: nat
      ensures !MustacheSpan(y, a, len)
    {
      if a < |y| {
        assert y[a] in y;
      }
    }
    ReplaceStringWithoutMustache(y, prefix, ignores);
    ExpressionThenRest(x, w, y, prefix, ignores);
  }

  /** Two bindings in running text are each rewritten on their own: the second expression is
      scanned after the first one, and is qualified in the same way. */
  lemma TwoExpressions(x: string, w1: string, y: string, w2: string, z: string, prefix: string, ignores: set<string>)
    requires '{' !in x && '{' !in y && '{' !in z && PlainToken(w1) && PlainToken(w2)
    requires LeadingWord(w1) !in ignores && LeadingWord(w2) !in ignores
    ensures ReplaceString(x + ("{{" + w1 + "}}") + (y + ("{{" + w2 + "}}") + z), prefix, ignores) ==
            Ok(x + ("{{" + prefix + "." + w1 + "}}") + (y + ("{{" + prefix + "." + w2 + "}}") + z))
  {
    ExpressionInText(y, w2, z, prefix, ignores);
    ExpressionThenRest(x, w1, y + ("{{" + w2 + "}}") + z, prefix, ignores);
  }

  /** `Hello {{name}}!` in scope `p` becomes `Hello {{p.name}}!`. */
  lemma GreetingExample()
    ensures ReplaceString("Hello {{name}}!", "p", {}) == Ok("Hello {{p.name}}!")
  {
    assert "Hello " + ("{{" + "name" + "}}") + "!" == "Hello {{name}}!";
    assert "Hello " + ("{{" + "p" + "." + "name" + "}}") + "!" == "Hello {{p.name}}!";
    assert PlainToken("name");
    ExpressionInText("Hello ", "name", "!", "p", {});
  }

  /** A token that starts with a letter or `_` and holds only token characters. */
  ghost predicate PlainToken(w: string) {
    |w| >= 1 && IsTokenStart(w[0]) && w[0] != '$' && forall k :: 0 <= k < |w| ==> IsTokenChar(w[k])
  }

  lemma TokenMustache(w: string)
    requires PlainToken(w)
    ensures MustacheSpan("{{" + w + "}}", 0, |w| + 4)
  {
    var s := "{{" + w + "}}";
    assert forall k :: 2 <= k < |w| + 2 ==> s[k] == w[k - 2];
  }

  lemma TokenExprTail(w: string, ignores: set<string>)
    requires PlainToken(w)
    ensures ExprMarks("{{" + w + "}}", |w| + 2, ignores).Ok?
    ensures ExprMarks("{{" + w + "}}", |w| + 2, ignores).value == [false, false]
  {
    var s := "{{" + w + "}}";
    var n := |w| + 2;
    assert s[n] == '}' && s[n + 1] == '}';
    assert ExprMarks(s, n + 2, ignores).Ok? && ExprMarks(s, n + 2, ignores).value == [];
    assert ExprMarks(s, n + 1, ignores).Ok? && ExprMarks(s, n + 1, ignores).value == [false];
  }

  lemma TokenExprMarks(w: string, ignores: set<string>, q: bool)
    requires PlainToken(w)
    requires q == (LeadingWord(w) !in ignores)
    ensures ExprMarks("{{" + w + "}}", 0, ignores).Ok?
    ensures ExprMarks("{{" + w + "}}", 0, ignores).value == [false, q] + Falses(|w| + 2)
  {
    var s := "{{" + w + "}}";
    var n := |w| + 2;
    TokenExprTail(w, ignores);
    assert forall k :: 2 <= k < n ==> s[k] == w[k - 2];
    assert s[n] == '}';
    assert TokenEnd(s, 2) == n;
    assert s[2..n] == w;
    assert s[..1] == "{";
    assert QuoteScan.StateAfter("{") == QuoteScan.Outside;
    assert ExprMarks(s, 1, ignores).Ok? && ExprMarks(s, 1, ignores).value == [q] + Falses(|w|) + [false, false];
  }

  lemma WeaveAfterOpen(r: string, q: bool, ins: string)
    ensures Weave("{{" + r, [false, q] + Falses(|r|), ins) == "{{" + (if q then ins else "") + r
  {
    WeaveAppend("{{", r, [false, q], Falses(|r|), ins);
    WeaveUnmarked(r, ins);
    assert Weave("{{"[1..], [false, q][1..], ins) == "{" + (if q then ins else "") + Weave("", [], ins);
  }

  lemma {:induction false} TokenWeave(w: string, prefix: string, q: bool)
    ensures Weave("{{" + w + "}}", [false, q] + Falses(|w| + 2), prefix + ".") ==
            if q then "{{" + prefix + "." + w + "}}" else "{{" + w + "}}"
  {
    assert "{{" + w + "}}" == "{{" + (w + "}}");
    WeaveAfterOpen(w + "}}", q, prefix + ".");
    if q {
      assert "{{" + (prefix + ".") + (w + "}}") == "{{" + prefix + "." + w + "}}";
    } else {
      assert "{{" + "" + (w + "}}") == "{{" + w + "}}";
    }
  }

  /** `{{name}}` becomes `{{prefix.name}}`, unless the leading word of `name` is ignored. */
  lemma SingleToken(w: string, prefix: string, ignores: set<string>)
    requires PlainToken(w)
    ensures LeadingWord(w) !in ignores ==> ReplaceString("{{" + w + "}}", prefix, ignores) == Ok("{{" + prefix + "." + w + "}}")
    ensures LeadingWord(w) in ignores ==> ReplaceString("{{" + w + "}}", prefix, ignores) == Ok("{{" + w + "}}")
  {
    var q := LeadingWord(w) !in ignores;
    TokenMustache(w);
    SingleExpression("{{" + w + "}}", ignores);
    TokenExprMarks(w, ignores, q);
    TokenWeave(w, prefix, q);
  }

  /** The rewrite is not idempotent: a second pass qualifies the token again. */
  lemma RewriteTwice(w: string, prefix: string, ignores: set<string>)
    requires PlainToken(w) && PlainToken(prefix)
    requires LeadingWord(w) !in ignores && LeadingWord(prefix + "." + w) !in ignores
    ensures ReplaceString("{{" + w + "}}", prefix, ignores) == Ok("{{" + prefix + "." + w + "}}")
    ensures ReplaceString("{{" + (prefix + "." + w) + "}}", prefix, ignores) ==
            Ok("{{" + prefix + "." + (prefix + "." + w) + "}}")
  {
    var v := prefix + "." + w;
    assert forall k :: 0 <= k < |v| ==> IsTokenChar(v[k]) by {
      forall k | 0 <= k < |v|
        ensures IsTokenChar(v[k])
      {
        if k > |prefix| { assert v[k] == w[k - |prefix| - 1]; }
      }
    }
    SingleToken(w, prefix, ignores);
    SingleToken(v, prefix, ignores);
  }
}
