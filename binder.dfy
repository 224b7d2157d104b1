/** The scope binder `bind(node, prefix, ignores)` (lib/build-xml.js:75-128): it walks a tree and
    rewrites, in place, every binding of the tree into the scope `prefix`. */
module Binder {
  import opened Errors
  import opened Dom
  import Rewrite

  /** The names every call ignores (lib/build-xml.js:76-81). */
  const Literals: set<string> := {"true", "false", "null", "undefined"}

  /** `s.replace(/\\./g, c)`. */
  function Substitute(s: string, c: char): (r: string)
    ensures |r| == |s|
    ensures forall k :: 0 <= k < |s| ==> r[k] == (if s[k] == '.' then c else s[k])
  {
    if |s| == 0 then "" else [if s[0] == '.' then c else s[0]] + Substitute(s[1..], c)
  }

  /** The scope with dots turned into underscores: the handler prefix. */
  function Underscored(prefix: string): string {
    Substitute(prefix, '_')
  }

  /** The scope with dots turned into hyphens: the class prefix. */
  function Hyphenated(prefix: string): string {
    Substitute(prefix, '-')
  }

  /** `/^(bind|catch)\\w+/`: an event handler attribute. */
  predicate IsHandlerName(name: string) {
    (|name| > 4 && name[..4] == "bind" && Rewrite.IsWordChar(name[4])) ||
    (|name| > 5 && name[..5] == "catch" && Rewrite.IsWordChar(name[5]))
  }

  /** The handler test needs at least one word character after the verb, and it matches none of
      the names the attribute loop treats otherwise, so the handler step never meets the class
      step or the loop-name attributes. */
  lemma HandlerNames()
    ensures IsHandlerName("bindtap") && IsHandlerName("catchtap")
    ensures !IsHandlerName("bind") && !IsHandlerName("catch") && !IsHandlerName("bind-tap")
    ensures !IsHandlerName("class") && !IsHandlerName("wx:for")
    ensures !IsHandlerName("wx:for-index") && !IsHandlerName("wx:for-item")
  {
    assert "bindtap"[..4] == "bind" && "catchtap"[..5] == "catch";
    assert "bind-tap"[4] == '-' && "bind-tap"[..5][0] == 'b';
    assert "class"[..4] == "clas";
    assert "wx:for"[..4] == "wx:f" && "wx:for"[..5] == "wx:fo";
    assert "wx:for-index"[..4] == "wx:f" && "wx:for-index"[..5] == "wx:fo";
    assert "wx:for-item"[..4] == "wx:f" && "wx:for-item"[..5] == "wx:fo";
  }

  // ---------------------------------------------------------------------------------------
  // Class tokens: `split(' ')` and `join(' ')`

  /** `s.split(' ')`: the pieces between single spaces; there is always at least one. */
  function Split(s: string): (r: seq<string>)
    ensures |r| >= 1
    ensures forall k :: 0 <= k < |r| ==> ' ' !in r[k]
  {
    if |s| == 0 then [""]
    else
      var rest := Split(s[1..]);
      if s[0] == ' ' then [""] + rest else [[s[0]] + rest[0]] + rest[1..]
  }

  /** `xs.join(' ')`. */
  function Join(xs: seq<string>): string
    requires |xs| >= 1
  {
    if |xs| == 1 then xs[0] else xs[0] + " " + Join(xs[1..])
  }

  /** Joining the pieces gives back the value. */
  lemma {:induction false} JoinSplit(s: string)
    ensures Join(Split(s)) == s
  {
    if |s| > 0 {
      var rest := Split(s[1..]);
      JoinSplit(s[1..]);
      if s[0] != ' ' {
        if |rest| > 1 {
          assert Join(rest) == rest[0] + " " + Join(rest[1..]);
          assert rest[1..][1..] == rest[2..];
        }
      }
      assert s == [s[0]] + s[1..];
    }
  }

  /** Splitting a join of space-free pieces gives back the pieces. */
  lemma {:induction false} SplitJoin(xs: seq<string>)
    requires |xs| >= 1
    requires forall k :: 0 <= k < |xs| ==> ' ' !in xs[k]
    ensures Split(Join(xs)) == xs
    decreases |Join(xs)|
  {
    if |xs| == 1 {
      SplitNoSpace(xs[0]);
    } else {
      SplitAppend(xs[0], Join(xs[1..]));
      SplitJoin(xs[1..]);
    }
  }

  lemma {:induction false} SplitNoSpace(s: string)
    requires ' ' !in s
    ensures Split(s) == [s]
  {
    if |s| > 0 {
      SplitNoSpace(s[1..]);
      assert [s[0]] + s[1..] == s;
    }
  }

  lemma {:induction false} SplitAppend(x: string, t: string)
    requires ' ' !in x
    ensures Split(x + " " + t) == [x] + Split(t)
  {
    if |x| == 0 {
      assert x + " " + t == [' '] + t;
      assert (x + " " + t)[1..] == t;
    } else {
      assert (x + " " + t)[1..] == x[1..] + " " + t;
      SplitAppend(x[1..], t);
      assert [x[0]] + x[1..] == x;
    }
  }

  /** `cls => cls + ' ' + classPrefix + '-' + cls` applied to every piece. */
  function Pairs(xs: seq<string>, classPrefix: string): (r: seq<string>)
    ensures |r| == |xs|
  {
    if |xs| == 0 then [] else [xs[0] + " " + classPrefix + "-" + xs[0]] + Pairs(xs[1..], classPrefix)
  }

  /** The class value `v` with every token followed by its scoped twin (lib/build-xml.js:109-111). */
  function ExpandClass(v: string, classPrefix: string): string {
    Join(Pairs(Split(v), classPrefix))
  }

  /** The token list after expansion: each original token, in order, followed by its twin. */
  function Doubled(xs: seq<string>, classPrefix: string): (r: seq<string>)
    ensures |r| == 2 * |xs|
    ensures forall k :: 0 <= k < |xs| ==> r[2 * k] == xs[k] && r[2 * k + 1] == classPrefix + "-" + xs[k]
  {
    if |xs| == 0 then [] else [xs[0], classPrefix + "-" + xs[0]] + Doubled(xs[1..], classPrefix)
  }

  lemma {:induction false} JoinPairs(xs: seq<string>, classPrefix: string)
    requires |xs| >= 1
    ensures Join(Pairs(xs, classPrefix)) == Join(Doubled(xs, classPrefix))
  {
    var p := Pairs(xs, classPrefix);
    var d := Doubled(xs, classPrefix);
    var pair := xs[0] + " " + classPrefix + "-" + xs[0];
    if |xs| == 1 {
      assert d[1..] == [classPrefix + "-" + xs[0]];
    } else {
      JoinPairs(xs[1..], classPrefix);
      assert p[1..] == Pairs(xs[1..], classPrefix);
      assert d[1..][1..] == Doubled(xs[1..], classPrefix);
      assert Join(p) == pair + " " + Join(p[1..]);
      assert Join(d) == xs[0] + " " + (classPrefix + "-" + xs[0] + " " + Join(d[2..]));
    }
  }

  lemma {:induction false} DoubledNoSpace(xs: seq<string>, classPrefix: string)
    requires ' ' !in classPrefix && forall k :: 0 <= k < |xs| ==> ' ' !in xs[k]
    ensures var d := Doubled(xs, classPrefix); forall k :: 0 <= k < |d| ==> ' ' !in d[k]
  {
    if |xs| > 0 {
      DoubledNoSpace(xs[1..], classPrefix);
      assert forall k :: 0 <= k < |xs[1..]| ==> xs[1..][k] == xs[k + 1];
      var twin := classPrefix + "-" + xs[0];
      assert ' ' !in twin;
      var d := Doubled(xs, classPrefix);
      forall k | 2 <= k < |d|
        ensures ' ' !in d[k]
      {
        assert d[k] == Doubled(xs[1..], classPrefix)[k - 2];
      }
    }
  }

  /** Class expansion doubles the tokens and keeps the originals in order, each followed by its
      scoped twin, when the class prefix holds no space. */
  lemma ExpandClassTokens(v: string, classPrefix: string)
    requires ' ' !in classPrefix
    ensures Split(ExpandClass(v, classPrefix)) == Doubled(Split(v), classPrefix)
  {
    var xs := Split(v);
    JoinPairs(xs, classPrefix);
    DoubledNoSpace(xs, classPrefix);
    SplitJoin(Doubled(xs, classPrefix));
  }

  // ---------------------------------------------------------------------------------------
  // The walk

  /** The new value of one attribute under `ignores`: a value holding `{` is rewritten, a
      handler name gets the underscored scope in front, and a `class` value is expanded, in
      that order (lib/build-xml.js:92-111). */
  function BindValue(a: Attr, prefix: string, ignores: set<string>): Result<string> {
    var rewritten :- if '{' in a.value then Rewrite.ReplaceString(a.value, prefix, ignores) else Ok(a.value);
    var handled := if IsHandlerName(a.name) then Underscored(prefix) + "_" + rewritten else rewritten;
    Ok(if a.name == "class" then ExpandClass(handled, Hyphenated(prefix)) else handled)
  }

  /** The loop names a `wx:for` element declares, read from its attributes as they are now
      (lib/build-xml.js:103-104). */
  function LoopNames(attrs: seq<Attr>): set<string> {
    {OrElse(GetAttribute(attrs, "wx:for-index"), "index"), OrElse(GetAttribute(attrs, "wx:for-item"), "item")}
  }

  /** A `wx:for` element declares the value of its first `wx:for-index` attribute and of its
      first `wx:for-item` attribute, and `index` and `item` where these are missing or empty. */
  lemma LoopNamesDefault(attrs: seq<Attr>)
    ensures (forall k :: 0 <= k < |attrs| ==> attrs[k].name != "wx:for-index") ==> "index" in LoopNames(attrs)
    ensures (forall k :: 0 <= k < |attrs| ==> attrs[k].name != "wx:for-item") ==> "item" in LoopNames(attrs)
    ensures forall k :: 0 <= k < |attrs| && attrs[k].name == "wx:for-index" && FirstNamed(attrs, k) ==>
              OrElse(attrs[k].value, "index") in LoopNames(attrs)
    ensures forall k :: 0 <= k < |attrs| && attrs[k].name == "wx:for-item" && FirstNamed(attrs, k) ==>
              OrElse(attrs[k].value, "item") in LoopNames(attrs)
  {
    GetAttributeFirst(attrs, "wx:for-index");
    GetAttributeFirst(attrs, "wx:for-item");
  }

  /** The attributes and the ignore set after the attribute loop. */
  datatype Scan = Scan(attrs: seq<Attr>, ignores: set<string>)

  /** The attribute loop from position `i` on, with the attributes as they are now and the
      ignore set as it is now (lib/build-xml.js:87-112). */
  function ScanAttrs(attrs: seq<Attr>, i: nat, prefix: string, ignores: set<string>): Result<Scan>
    requires i <= |attrs|
    decreases |attrs| - i
  {
    if i == |attrs| then Ok(Scan(attrs, ignores))
    else
      var v :- BindValue(attrs[i], prefix, ignores);
      var next := attrs[i := Attr(attrs[i].name, v)];
      var ignores' := if attrs[i].name == "wx:for" then ignores + LoopNames(next) else ignores;
      ScanAttrs(next, i + 1, prefix, ignores')
  }

  /** `bind(node, prefix, ignores)` as a value: the bound tree, or the first error. */
  function BindNode(n: Node, prefix: string, ignores: set<string>): Result<Node>
    decreases n, 1
  {
    var ig := Literals + ignores;
    match n
    case Element(tag, attrs, children) =>
      var scan :- ScanAttrs(attrs, 0, prefix, ig);
      var kids :- BindAll(children, prefix, scan.ignores);
      Ok(Element(tag, scan.attrs, kids))
    case Text(data) =>
      if data == "" then Ok(n)
      else
        var d :- Rewrite.ReplaceString(data, prefix, ig);
        Ok(Text(d))
    case Document(children) =>
      var kids :- BindAll(children, prefix, ig);
      Ok(Document(kids))
    case Other(_) => Ok(n)
  }

  /** The attribute loop of lib/build-xml.js:87-112. The `wx:for` step, which the source runs
      between the handler step and the class step of `BindValue`, never applies to a `class`
      attribute, so it is taken after them. */
  method BindAttributes(attrs0: seq<Attr>, prefix: string, ignores: set<string>) returns (r: Result<Scan>)
    ensures r == ScanAttrs(attrs0, 0, prefix, ignores)
  {
    var ig := ignores;
    var attrs := attrs0;
    var i := 0;
    while i < |attrs|
      invariant i <= |attrs|
      invariant ScanAttrs(attrs0, 0, prefix, ignores) == ScanAttrs(attrs, i, prefix, ig)
      decreases |attrs| - i
    {
      var a := attrs[i];
      var v := BindValue(a, prefix, ig);
      if v.Err? {
        return Err(v.error);
      }
      attrs := attrs[i := Attr(a.name, v.value)];
      if a.name == "wx:for" {
        var index := OrElse(GetAttribute(attrs, "wx:for-index"), "index");
        var item := OrElse(GetAttribute(attrs, "wx:for-item"), "item");
        ig := ig + {index, item};
      }
      i := i + 1;
    }
    r := Ok(Scan(attrs, ig));
  }

  /** The children loop: every child under the same ignore set, in order. */
  function BindAll(ns: seq<Node>, prefix: string, ignores: set<string>): Result<seq<Node>>
    decreases ns, 0
  {
    if |ns| == 0 then Ok([])
    else
      var first :- BindNode(ns[0], prefix, ignores);
      var rest :- BindAll(ns[1..], prefix, ignores);
      Ok([first] + rest)
  }

  /** The walk of lib/build-xml.js:75-128, attribute loop and child loop included. */
  method Bind(n: Node, prefix: string, ignores: set<string>) returns (r: Result<Node>)
    ensures r == BindNode(n, prefix, ignores)
    decreases n
  {
    var ig := Literals + ignores;
    match n {
      case Element(tag, attrs, children) =>
        var scan := BindAttributes(attrs, prefix, ig);
        if scan.Err? {
          return Err(scan.error);
        }
        var kids := BindChildren(children, prefix, scan.value.ignores);
        if kids.Err? {
          return Err(kids.error);
        }
        r := Ok(Element(tag, scan.value.attrs, kids.value));
      case Text(data) =>
        if data != "" {
          var d := Rewrite.ReplaceString(data, prefix, ig);
          if d.Err? {
            return Err(d.error);
          }
          r := Ok(Text(d.value));
        } else {
          r := Ok(n);
        }
      case Document(children) =>
        var kids := BindChildren(children, prefix, ig);
        if kids.Err? {
          return Err(kids.error);
        }
        r := Ok(Document(kids.value));
      case Other(_) =>
        r := Ok(n);
    }
  }

  /** The children loop of lib/build-xml.js:123-127. */
  method BindChildren(ns: seq<Node>, prefix: string, ignores: set<string>) returns (r: Result<seq<Node>>)
    ensures r == BindAll(ns, prefix, ignores)
    decreases ns
  {
    var kids := [];
    var j := 0;
    assert ns[j..] == ns;
    PrependEmpty(BindAll(ns, prefix, ignores));
    while j < |ns|
      invariant j <= |ns|
      invariant BindAll(ns, prefix, ignores) == Prepend(kids, BindAll(ns[j..], prefix, ignores))
      decreases |ns| - j
    {
      var child := Bind(ns[j], prefix, ignores);
      assert ns[j..][0] == ns[j];
      if child.Err? {
        assert BindAll(ns[j..], prefix, ignores) == Err(child.error);
        return Err(child.error);
      }
      assert ns[j..][1..] == ns[j + 1..];
      PrependStep(kids, child.value, BindAll(ns[j + 1..], prefix, ignores));
      kids := kids + [child.value];
      j := j + 1;
    }
    assert ns[j..] == [] && kids + [] == kids;
    r := Ok(kids);
  }

  // ---------------------------------------------------------------------------------------
  // Properties

  /** The same attribute names in the same order. */
  ghost predicate SameNames(a: seq<Attr>, b: seq<Attr>) {
    |a| == |b| && forall k :: 0 <= k < |a| ==> a[k].name == b[k].name
  }

  /** `b` is `a` with at most attribute values and text data changed. */
  ghost predicate SameShape(a: Node, b: Node)
    decreases a
  {
    match a
    case Element(tag, attrs, children) =>
      b.Element? && b.tag == tag && SameNames(attrs, b.attrs) &&
      |b.children| == |children| && forall k :: 0 <= k < |children| ==> SameShape(children[k], b.children[k])
    case Text(_) => b.Text?
    case Document(children) =>
      b.Document? && |b.children| == |children| &&
      forall k :: 0 <= k < |children| ==> SameShape(children[k], b.children[k])
    case Other(_) => b == a
  }

  /** The attribute loop changes values only, and keeps the ignore set it was given. */
  lemma {:induction false} ScanKeepsNames(attrs: seq<Attr>, i: nat, prefix: string, ignores: set<string>)
    requires i <= |attrs|
    requires ScanAttrs(attrs, i, prefix, ignores).Ok?
    ensures SameNames(attrs, ScanAttrs(attrs, i, prefix, ignores).value.attrs)
    ensures ignores <= ScanAttrs(attrs, i, prefix, ignores).value.ignores
    decreases |attrs| - i
  {
    if i < |attrs| {
      var v := BindValue(attrs[i], prefix, ignores).value;
      var next := attrs[i := Attr(attrs[i].name, v)];
      var ignores' := if attrs[i].name == "wx:for" then ignores + LoopNames(next) else ignores;
      ScanKeepsNames(next, i + 1, prefix, ignores');
    }
  }

  /** `bind` never adds, removes or reorders nodes or attributes, and never renames them. */
  lemma {:induction false} BindKeepsShape(n: Node, prefix: string, ignores: set<string>)
    requires BindNode(n, prefix, ignores).Ok?
    ensures SameShape(n, BindNode(n, prefix, ignores).value)
    decreases n, 1
  {
    var ig := Literals + ignores;
    match n
    case Element(tag, attrs, children) =>
      ScanKeepsNames(attrs, 0, prefix, ig);
      BindAllKeepsShape(children, prefix, ScanAttrs(attrs, 0, prefix, ig).value.ignores);
    case Text(_) =>
    case Document(children) =>
      BindAllKeepsShape(children, prefix, ig);
    case Other(_) =>
  }

  lemma {:induction false} BindAllKeepsShape(ns: seq<Node>, prefix: string, ignores: set<string>)
    requires BindAll(ns, prefix, ignores).Ok?
    ensures |BindAll(ns, prefix, ignores).value| == |ns|
    ensures forall k :: 0 <= k < |ns| ==> SameShape(ns[k], BindAll(ns, prefix, ignores).value[k])
    decreases ns, 0
  {
    if |ns| > 0 {
      BindKeepsShape(ns[0], prefix, ignores);
      BindAllKeepsShape(ns[1..], prefix, ignores);
      var out := BindAll(ns, prefix, ignores).value;
      forall k | 0 <= k < |ns|
        ensures SameShape(ns[k], out[k])
      {
        if k > 0 {
          assert ns[k] == ns[1..][k - 1];
        }
      }
    }
  }

  /** Siblings do not see each other: the children loop succeeds exactly when every child binds
      on its own under the parent's ignore set, and then each result is that child's own. */
  lemma {:induction false} BindAllPointwise(ns: seq<Node>, prefix: string, ignores: set<string>)
    ensures BindAll(ns, prefix, ignores).Ok? <==> forall k :: 0 <= k < |ns| ==> BindNode(ns[k], prefix, ignores).Ok?
    ensures BindAll(ns, prefix, ignores).Ok? ==>
              |BindAll(ns, prefix, ignores).value| == |ns| &&
              forall k :: 0 <= k < |ns| ==> BindNode(ns[k], prefix, ignores) == Ok(BindAll(ns, prefix, ignores).value[k])
    decreases |ns|
  {
    if |ns| > 0 {
      BindAllPointwise(ns[1..], prefix, ignores);
      assert forall k :: 1 <= k < |ns| ==> ns[1..][k - 1] == ns[k];
    }
  }

  /** The attribute loop from position `i` up to, not including, position `j`: the attributes
      and the ignore set with which attribute `j` is processed. */
  function ScanTo(attrs: seq<Attr>, i: nat, j: nat, prefix: string, ignores: set<string>): Result<Scan>
    requires i <= j <= |attrs|
    decreases j - i
  {
    if i == j then Ok(Scan(attrs, ignores))
    else
      var v :- BindValue(attrs[i], prefix, ignores);
      var next := attrs[i := Attr(attrs[i].name, v)];
      var ignores' := if attrs[i].name == "wx:for" then ignores + LoopNames(next) else ignores;
      ScanTo(next, i + 1, j, prefix, ignores')
  }

  /** Running the loop to `j` and then on from `j` is running the whole loop. */
  lemma {:induction false} ScanThrough(attrs: seq<Attr>, i: nat, j: nat, prefix: string, ignores: set<string>)
    requires i <= j <= |attrs|
    ensures ScanTo(attrs, i, j, prefix, ignores).Ok? ==>
              var mid := ScanTo(attrs, i, j, prefix, ignores).value;
              |mid.attrs| == |attrs| &&
              ScanAttrs(attrs, i, prefix, ignores) == ScanAttrs(mid.attrs, j, prefix, mid.ignores)
    ensures ScanTo(attrs, i, j, prefix, ignores).Err? ==>
              ScanAttrs(attrs, i, prefix, ignores) == Err(ScanTo(attrs, i, j, prefix, ignores).error)
    decreases j - i
  {
    if i < j {
      var r := BindValue(attrs[i], prefix, ignores);
      if r.Ok? {
        var next := attrs[i := Attr(attrs[i].name, r.value)];
        var ignores' := if attrs[i].name == "wx:for" then ignores + LoopNames(next) else ignores;
        ScanThrough(next, i + 1, j, prefix, ignores');
      }
    }
  }

  /** Without a `wx:for` attribute between `i` and `j` the ignore set stays as given: in
      particular the `wx:for` attribute itself is rewritten before its loop names are added. */
  lemma {:induction false} NoLoopKeepsIgnores(attrs: seq<Attr>, i: nat, j: nat, prefix: string, ignores: set<string>)
    requires i <= j <= |attrs|
    requires forall k :: i <= k < j ==> attrs[k].name != "wx:for"
    requires ScanTo(attrs, i, j, prefix, ignores).Ok?
    ensures ScanTo(attrs, i, j, prefix, ignores).value.ignores == ignores
    decreases j - i
  {
    if i < j {
      var v := BindValue(attrs[i], prefix, ignores).value;
      NoLoopKeepsIgnores(attrs[i := Attr(attrs[i].name, v)], i + 1, j, prefix, ignores);
    }
  }

  /** The loop names are declared by attributes whose values hold no `{`. */
  ghost predicate PlainLoopNames(attrs: seq<Attr>) {
    forall k :: 0 <= k < |attrs| && attrs[k].name in {"wx:for-index", "wx:for-item"} ==> '{' !in attrs[k].value
  }

  /** An attribute that is no handler, no `class` and holds no `{` keeps its value. */
  lemma PlainValueKept(a: Attr, prefix: string, ignores: set<string>)
    requires !IsHandlerName(a.name) && a.name != "class" && '{' !in a.value
    ensures BindValue(a, prefix, ignores) == Ok(a.value)
  {
  }

  /** An attribute the attribute loop leaves alone: no handler, no `class`, no `wx:for`, no `{`. */
  ghost predicate PlainAttr(a: Attr) {
    !IsHandlerName(a.name) && a.name != "class" && a.name != "wx:for" && '{' !in a.value
  }

  /** The attribute loop over plain attributes changes neither them nor the ignore set. */
  lemma {:induction false} PlainAttrsKept(attrs: seq<Attr>, i: nat, prefix: string, ignores: set<string>)
    requires i <= |attrs| && forall k :: i <= k < |attrs| ==> PlainAttr(attrs[k])
    ensures ScanAttrs(attrs, i, prefix, ignores) == Ok(Scan(attrs, ignores))
    decreases |attrs| - i
  {
    if i < |attrs| {
      PlainValueKept(attrs[i], prefix, ignores);
      assert attrs[i := Attr(attrs[i].name, attrs[i].value)] == attrs;
      PlainAttrsKept(attrs, i + 1, prefix, ignores);
    }
  }

  lemma {:induction false} GetAttributeUpdate(attrs: seq<Attr>, i: nat, v: string, name: string)
    requires i < |attrs| && (attrs[i].name != name || attrs[i].value == v)
    ensures GetAttribute(attrs[i := Attr(attrs[i].name, v)], name) == GetAttribute(attrs, name)
  {
    var next := attrs[i := Attr(attrs[i].name, v)];
    if i > 0 {
      assert next[1..] == attrs[1..][i - 1 := Attr(attrs[i].name, v)];
      GetAttributeUpdate(attrs[1..], i - 1, v, name);
    }
  }

  /** One step of the loop up to `j`, over attributes whose loop names are plain: the
      attributes and the ignore set it hands on, and what it keeps. */
  lemma ScanStep(attrs: seq<Attr>, i: nat, j: nat, prefix: string, ignores: set<string>)
    returns (next: seq<Attr>, ignores': set<string>)
    requires i < j <= |attrs| && PlainLoopNames(attrs) && ScanTo(attrs, i, j, prefix, ignores).Ok?
    ensures |next| == |attrs| && forall m :: 0 <= m < |attrs| ==> next[m].name == attrs[m].name
    ensures LoopNames(next) == LoopNames(attrs) && PlainLoopNames(next)
    ensures ignores' == if attrs[i].name == "wx:for" then ignores + LoopNames(attrs) else ignores
    ensures ScanTo(next, i + 1, j, prefix, ignores') == ScanTo(attrs, i, j, prefix, ignores)
  {
    var a := attrs[i];
    var v := BindValue(a, prefix, ignores).value;
    next := attrs[i := Attr(a.name, v)];
    if a.name in {"wx:for-index", "wx:for-item"} {
      HandlerNames();
      PlainValueKept(a, prefix, ignores);
    }
    GetAttributeUpdate(attrs, i, v, "wx:for-index");
    GetAttributeUpdate(attrs, i, v, "wx:for-item");
    ignores' := if a.name == "wx:for" then ignores + LoopNames(next) else ignores;
  }

  /** A `wx:for` attribute at `k` puts its loop names (as declared, `index` and `item` by
      default) into the ignore set of every later attribute and of the children. */
  lemma {:induction false} LoopNamesLater(attrs: seq<Attr>, i: nat, j: nat, k: nat, prefix: string, ignores: set<string>)
    requires i <= k < j <= |attrs| && attrs[k].name == "wx:for"
    requires PlainLoopNames(attrs)
    requires ScanTo(attrs, i, j, prefix, ignores).Ok?
    ensures LoopNames(attrs) <= ScanTo(attrs, i, j, prefix, ignores).value.ignores
    decreases j - i
  {
    var next, ignores' := ScanStep(attrs, i, j, prefix, ignores);
    if i == k {
      ScanKeepsIgnores(next, i + 1, j, prefix, ignores');
    } else {
      LoopNamesLater(next, i + 1, j, k, prefix, ignores');
    }
  }

  /** The loop only adds to the ignore set. */
  lemma {:induction false} ScanKeepsIgnores(attrs: seq<Attr>, i: nat, j: nat, prefix: string, ignores: set<string>)
    requires i <= j <= |attrs|
    requires ScanTo(attrs, i, j, prefix, ignores).Ok?
    ensures ignores <= ScanTo(attrs, i, j, prefix, ignores).value.ignores
    decreases j - i
  {
    if i < j {
      var v := BindValue(attrs[i], prefix, ignores).value;
      var next := attrs[i := Attr(attrs[i].name, v)];
      var ignores' := if attrs[i].name == "wx:for" then ignores + LoopNames(next) else ignores;
      ScanKeepsIgnores(next, i + 1, j, prefix, ignores');
    }
  }

  /** The children of a `wx:for` element are bound with its loop names ignored, on top of the
      literals and the names the caller ignores. */
  lemma LoopNamesInChildren(tag: string, attrs: seq<Attr>, children: seq<Node>, k: nat, prefix: string, ignores: set<string>)
    requires k < |attrs| && attrs[k].name == "wx:for" && PlainLoopNames(attrs)
    requires BindNode(Element(tag, attrs, children), prefix, ignores).Ok?
    ensures var scan := ScanAttrs(attrs, 0, prefix, Literals + ignores);
            scan.Ok? && Literals + ignores + LoopNames(attrs) <= scan.value.ignores &&
            BindAll(children, prefix, scan.value.ignores) == Ok(BindNode(Element(tag, attrs, children), prefix, ignores).value.children)
  {
    var ig := Literals + ignores;
    ScanThrough(attrs, 0, |attrs|, prefix, ig);
    ScanKeepsIgnores(attrs, 0, |attrs|, prefix, ig);
    LoopNamesLater(attrs, 0, |attrs|, k, prefix, ig);
  }

  /** A handler attribute gets the underscored scope in front of its value, after the bindings
      in the value, if any, have been rewritten; a failed rewrite is the result. */
  lemma HandlerValue(a: Attr, prefix: string, ignores: set<string>)
    requires IsHandlerName(a.name)
    ensures '{' !in a.value ==> BindValue(a, prefix, ignores) == Ok(Underscored(prefix) + "_" + a.value)
    ensures '{' in a.value ==>
              var r := Rewrite.ReplaceString(a.value, prefix, ignores);
              BindValue(a, prefix, ignores) == if r.Ok? then Ok(Underscored(prefix) + "_" + r.value) else r
  {
    HandlerNames();
  }

  /** `bindtap="onTap"` under `a.b` becomes `bindtap="a_b_onTap"`. */
  lemma HandlerExample(ignores: set<string>)
    ensures BindValue(Attr("bindtap", "onTap"), "a.b", ignores) == Ok("a_b_onTap")
  {
    assert "bindtap"[..4] == "bind";
    assert Substitute("b", '_') == "b" && Substitute(".b", '_') == "_b";
    assert Underscored("a.b") == "a_b";
    HandlerValue(Attr("bindtap", "onTap"), "a.b", ignores);
    assert "a_b" + "_" + "onTap" == "a_b_onTap";
  }

  /** Two class tokens `x y` become `x cp-x y cp-y`. */
  lemma ExpandTwo(x: string, y: string, classPrefix: string)
    requires ' ' !in x && ' ' !in y
    ensures ExpandClass(x + " " + y, classPrefix) ==
            x + " " + classPrefix + "-" + x + " " + y + " " + classPrefix + "-" + y
  {
    SplitNoSpace(x);
    SplitNoSpace(y);
    SplitJoin([x, y]);
    var p := x + " " + classPrefix + "-" + x;
    var q := y + " " + classPrefix + "-" + y;
    assert [x, y][1..] == [y] && [y][1..] == [];
    assert Pairs([y], classPrefix) == [q] + Pairs([], classPrefix) == [q];
    var pairs := Pairs([x, y], classPrefix);
    assert pairs == [p] + [q];
    assert pairs[1..] == [q];
    assert Join(pairs) == p + " " + q;
  }

  /** A `class` value is expanded with the hyphenated scope, after the bindings in it, if any,
      have been rewritten; a failed rewrite is the result. */
  lemma ClassValue(v: string, prefix: string, ignores: set<string>)
    ensures '{' !in v ==> BindValue(Attr("class", v), prefix, ignores) == Ok(ExpandClass(v, Hyphenated(prefix)))
    ensures '{' in v ==>
              var r := Rewrite.ReplaceString(v, prefix, ignores);
              BindValue(Attr("class", v), prefix, ignores) == if r.Ok? then Ok(ExpandClass(r.value, Hyphenated(prefix))) else r
  {
    HandlerNames();
  }

  /** The class tokens `foo bar` with the class prefix `a-b`. */
  lemma FooBarExpanded()
    ensures ExpandClass("foo bar", "a-b") == "foo a-b-foo bar a-b-bar"
  {
    assert "foo" + " " + "bar" == "foo bar";
    assert "foo" + " " + "a-b" + "-" + "foo" + " " + "bar" + " " + "a-b" + "-" + "bar" == "foo a-b-foo bar a-b-bar";
    ExpandTwo("foo", "bar", "a-b");
  }

  /** `class="foo bar"` under `a.b` (class prefix `a-b`) becomes `class="foo a-b-foo bar a-b-bar"`. */
  lemma ClassExample(ignores: set<string>)
    ensures BindValue(Attr("class", "foo bar"), "a.b", ignores) == Ok("foo a-b-foo bar a-b-bar")
  {
    assert Substitute("b", '-') == "b" && Substitute(".b", '-') == "-b";
    assert Hyphenated("a.b") == "a-b";
    assert '{' !in "foo bar";
    ClassValue("foo bar", "a.b", ignores);
    FooBarExpanded();
  }

  /** A text node `{{w}}` is qualified with the scope unless the leading word of `w` is a
      literal or ignored by the caller. */
  lemma BindTextToken(w: string, prefix: string, ignores: set<string>)
    requires Rewrite.PlainToken(w)
    ensures Rewrite.LeadingWord(w) in Literals + ignores ==>
              BindNode(Text("{{" + w + "}}"), prefix, ignores) == Ok(Text("{{" + w + "}}"))
    ensures Rewrite.LeadingWord(w) !in Literals + ignores ==>
              BindNode(Text("{{" + w + "}}"), prefix, ignores) == Ok(Text("{{" + prefix + "." + w + "}}"))
  {
    Rewrite.SingleToken(w, prefix, Literals + ignores);
  }
}
