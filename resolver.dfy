/** The component resolver `build(from, prefix)` (lib/build-xml.js:130-167): it binds a parsed
    document into its scope, then replaces every `<component>` element by the built document of
    the component it names, recursively, each one a scope deeper. */
module Resolver {
  import opened Errors
  import opened Dom
  import Binder
  import Rewrite

  /** What the two lookup roots hold, by component name. A name is a key of a map when the root
      has a directory of that name; the value is the parsed component file, or `None` when that
      file cannot be read. */
  datatype Workspace = Workspace(components: map<string, Option<Node>>, packages: map<string, Option<Node>>)

  /** A component file found by the lookup: its path and its content. */
  datatype Source = Source(path: string, file: Option<Node>)

  /** `path.join(components, name, name + '.xml')`, relative to the working directory. */
  function ComponentFile(name: string): string {
    "src/components/" + name + "/" + name + ".xml"
  }

  /** `path.join(node_modules, name, 'index.xml')`, relative to the working directory. */
  function PackageFile(name: string): string {
    "node_modules/" + name + "/index.xml"
  }

  /** The lookup of lib/build-xml.js:147-156: the components directory first, then the
      installed packages. */
  function Locate(ws: Workspace, name: string): (r: Option<Source>)
    ensures r.None? <==> name !in ws.components && name !in ws.packages
    ensures name in ws.components ==> r == Some(Source(ComponentFile(name), ws.components[name]))
    ensures name !in ws.components && name in ws.packages ==> r == Some(Source(PackageFile(name), ws.packages[name]))
  {
    if name in ws.components then Some(Source(ComponentFile(name), ws.components[name]))
    else if name in ws.packages then Some(Source(PackageFile(name), ws.packages[name]))
    else None
  }

  /** The scope of a component with key `key` inside the scope `prefix` (lib/build-xml.js:157-162):
      the key itself at the top, otherwise the enclosing scope, a dot and the key. */
  function ChildPrefix(prefix: string, key: string): (r: string)
    ensures |key| <= |r| && r[|r| - |key|..] == key
    ensures prefix != "" ==> |r| == |prefix| + 1 + |key| && r[..|prefix|] == prefix && r[|prefix|] == '.'
    ensures prefix == "" ==> r == key
  {
    if prefix != "" then prefix + "." + key else key
  }

  /** `build(from, prefix)` on the content `file` read from `from`: bind when the scope is not
      empty, then resolve the component references. `fuel` bounds the depth of references. */
  function Build(ws: Workspace, fuel: nat, from: string, file: Option<Node>, prefix: string): Result<Node>
    decreases fuel, 1
  {
    if file.None? then Err(ReadFailed(from))
    else
      var doc :- if prefix != "" then Binder.BindNode(file.value, prefix, {}) else Ok(file.value);
      ResolveNode(ws, fuel, from, prefix, doc)
  }

  /** The component loop of lib/build-xml.js:139-165 over the subtree `n`, in document order.
      A `<component>` element is replaced by its built document; the references inside it are
      still built, because they were listed before the replacement, but their results stay in the
      detached element. */
  function ResolveNode(ws: Workspace, fuel: nat, from: string, prefix: string, n: Node): Result<Node>
    decreases fuel, 0, n, 1
  {
    match n
    case Element(tag, attrs, children) =>
      if tag == "component" then
        var built :- Inline(ws, fuel, from, prefix, n);
        var _ :- ResolveAll(ws, fuel, from, prefix, children);
        Ok(built)
      else
        var kids :- ResolveAll(ws, fuel, from, prefix, children);
        Ok(Element(tag, attrs, kids))
    case Document(children) =>
      var kids :- ResolveAll(ws, fuel, from, prefix, children);
      Ok(Document(kids))
    case Text(_) => Ok(n)
    case Other(_) => Ok(n)
  }

  function ResolveAll(ws: Workspace, fuel: nat, from: string, prefix: string, ns: seq<Node>): Result<seq<Node>>
    decreases fuel, 0, ns, 0
  {
    if |ns| == 0 then Ok([])
    else
      var first :- ResolveNode(ws, fuel, from, prefix, ns[0]);
      var rest :- ResolveAll(ws, fuel, from, prefix, ns[1..]);
      Ok([first] + rest)
  }

  /** The lookup of a reference with attributes `attrs` (lib/build-xml.js:141-156): its key is
      required, its name defaults to the key. The result is the key and the component found. */
  function Target(ws: Workspace, from: string, attrs: seq<Attr>): (r: Result<(string, Source)>)
    ensures var key := GetAttribute(attrs, "key");
            var name := OrElse(GetAttribute(attrs, "name"), key);
            && (key == "" <==> r == Err(UnknownKey(from)))
            && (key != "" && Locate(ws, name).None? <==> r == Err(ComponentNotFound(name, from)))
            && (r.Ok? ==> r.value.0 == key != "" && Locate(ws, name) == Some(r.value.1))
  {
    var key := GetAttribute(attrs, "key");
    var name := OrElse(GetAttribute(attrs, "name"), key);
    if key == "" then Err(UnknownKey(from))
    else match Locate(ws, name)
      case None => Err(ComponentNotFound(name, from))
      case Some(src) => Ok((key, src))
  }

  /** One reference `el` (lib/build-xml.js:141-164), built one scope deeper. */
  function Inline(ws: Workspace, fuel: nat, from: string, prefix: string, el: Node): Result<Node>
    requires el.Element?
    decreases fuel, 0, el, 0
  {
    var target :- Target(ws, from, el.attrs);
    if fuel == 0 then Err(DepthExceeded)
    else Build(ws, fuel - 1, target.1.path, target.1.file, ChildPrefix(prefix, target.0))
  }

  // ---------------------------------------------------------------------------------------
  // The build as the source runs it

  /** `build(from, prefix)` of lib/build-xml.js:130-167, with the read already done. */
  method BuildFile(ws: Workspace, fuel: nat, from: string, file: Option<Node>, prefix: string) returns (r: Result<Node>)
    ensures r == Build(ws, fuel, from, file, prefix)
    decreases fuel, 1
  {
    if file.None? {
      return Err(ReadFailed(from));
    }
    var doc := file.value;
    if prefix != "" {
      var bound := Binder.Bind(doc, prefix, {});
      if bound.Err? {
        return Err(bound.error);
      }
      doc := bound.value;
    }
    r := ResolveTree(ws, fuel, from, prefix, doc);
  }

  /** The component loop over the subtree `n`. */
  method ResolveTree(ws: Workspace, fuel: nat, from: string, prefix: string, n: Node) returns (r: Result<Node>)
    ensures r == ResolveNode(ws, fuel, from, prefix, n)
    decreases fuel, 0, n, 1
  {
    match n {
      case Element(tag, attrs, children) =>
        if tag == "component" {
          var built := InlineComponent(ws, fuel, from, prefix, n);
          if built.Err? {
            return Err(built.error);
          }
          var detached := ResolveChildren(ws, fuel, from, prefix, children);
          if detached.Err? {
            return Err(detached.error);
          }
          r := built;
        } else {
          var kids := ResolveChildren(ws, fuel, from, prefix, children);
          if kids.Err? {
            return Err(kids.error);
          }
          r := Ok(Element(tag, attrs, kids.value));
        }
      case Document(children) =>
        var kids := ResolveChildren(ws, fuel, from, prefix, children);
        if kids.Err? {
          return Err(kids.error);
        }
        r := Ok(Document(kids.value));
      case Text(_) =>
        r := Ok(n);
      case Other(_) =>
        r := Ok(n);
    }
  }

  /** The loop over the children of one node. */
  method ResolveChildren(ws: Workspace, fuel: nat, from: string, prefix: string, ns: seq<Node>) returns (r: Result<seq<Node>>)
    ensures r == ResolveAll(ws, fuel, from, prefix, ns)
    decreases fuel, 0, ns, 0
  {
    var kids := [];
    var j := 0;
    assert ns[j..] == ns;
    PrependEmpty(ResolveAll(ws, fuel, from, prefix, ns));
    while j < |ns|
      invariant j <= |ns|
      invariant ResolveAll(ws, fuel, from, prefix, ns) == Prepend(kids, ResolveAll(ws, fuel, from, prefix, ns[j..]))
      decreases |ns| - j
    {
      var child := ResolveTree(ws, fuel, from, prefix, ns[j]);
      assert ns[j..][0] == ns[j];
      assert ns[j..][1..] == ns[j + 1..];
      if child.Err? {
        assert ResolveAll(ws, fuel, from, prefix, ns[j..]) == Err(child.error);
        return Err(child.error);
      }
      PrependStep(kids, child.value, ResolveAll(ws, fuel, from, prefix, ns[j + 1..]));
      kids := kids + [child.value];
      j := j + 1;
    }
    assert ns[j..] == [] && kids + [] == kids;
    r := Ok(kids);
  }

  /** One reference: lib/build-xml.js:141-164. */
  method InlineComponent(ws: Workspace, fuel: nat, from: string, prefix: string, el: Node) returns (r: Result<Node>)
    requires el.Element?
    ensures r == Inline(ws, fuel, from, prefix, el)
    decreases fuel, 0, el, 0
  {
    var key := GetAttribute(el.attrs, "key");
    var name := OrElse(GetAttribute(el.attrs, "name"), key);
    if key == "" {
      r := Err(UnknownKey(from));
    } else {
      var found := Locate(ws, name);
      if found.None? {
        r := Err(ComponentNotFound(name, from));
      } else if fuel == 0 {
        r := Err(DepthExceeded);
      } else {
        r := BuildFile(ws, fuel - 1, found.value.path, found.value.file, ChildPrefix(prefix, key));
      }
    }
  }

  // ---------------------------------------------------------------------------------------
  // Properties

  /** `n` holds no `<component>` element. */
  ghost predicate NoComponents(n: Node)
    decreases n
  {
    match n
    case Element(tag, _, children) =>
      tag != "component" && forall k :: 0 <= k < |children| ==> NoComponents(children[k])
    case Document(children) => forall k :: 0 <= k < |children| ==> NoComponents(children[k])
    case Text(_) => true
    case Other(_) => true
  }

  /** `r` is `n` with every outermost `<component>` element replaced, at its own position, by
      the document built for it; every other node is kept as it is. */
  ghost predicate Spliced(ws: Workspace, fuel: nat, from: string, prefix: string, n: Node, r: Node)
    decreases n
  {
    match n
    case Element(tag, attrs, children) =>
      if tag == "component" then Inline(ws, fuel, from, prefix, n) == Ok(r)
      else
        r.Element? && r.tag == tag && r.attrs == attrs && |r.children| == |children| &&
        forall k :: 0 <= k < |children| ==> Spliced(ws, fuel, from, prefix, children[k], r.children[k])
    case Document(children) =>
      r.Document? && |r.children| == |children| &&
      forall k :: 0 <= k < |children| ==> Spliced(ws, fuel, from, prefix, children[k], r.children[k])
    case Text(_) => r == n
    case Other(_) => r == n
  }

  /** The component loop only splices: each reference element is replaced by the built document
      of its component, at the same position in its parent, and nothing else changes. */
  lemma {:induction false} ResolveSplices(ws: Workspace, fuel: nat, from: string, prefix: string, n: Node)
    requires ResolveNode(ws, fuel, from, prefix, n).Ok?
    ensures Spliced(ws, fuel, from, prefix, n, ResolveNode(ws, fuel, from, prefix, n).value)
    decreases n, 1
  {
    match n
    case Element(tag, attrs, children) =>
      if tag != "component" {
        ResolveAllSplices(ws, fuel, from, prefix, children);
      }
    case Document(children) =>
      ResolveAllSplices(ws, fuel, from, prefix, children);
    case Text(_) =>
    case Other(_) =>
  }

  lemma {:induction false} ResolveAllSplices(ws: Workspace, fuel: nat, from: string, prefix: string, ns: seq<Node>)
    requires ResolveAll(ws, fuel, from, prefix, ns).Ok?
    ensures |ResolveAll(ws, fuel, from, prefix, ns).value| == |ns|
    ensures forall k :: 0 <= k < |ns| ==> Spliced(ws, fuel, from, prefix, ns[k], ResolveAll(ws, fuel, from, prefix, ns).value[k])
    decreases ns, 0
  {
    if |ns| > 0 {
      ResolveSplices(ws, fuel, from, prefix, ns[0]);
      ResolveAllSplices(ws, fuel, from, prefix, ns[1..]);
      var out := ResolveAll(ws, fuel, from, prefix, ns).value;
      forall k | 0 <= k < |ns|
        ensures Spliced(ws, fuel, from, prefix, ns[k], out[k])
      {
        if k > 0 {
          assert ns[k] == ns[1..][k - 1];
        }
      }
    }
  }

  /** A tree without references comes out of the component loop unchanged. */
  lemma {:induction false} ResolveWithoutComponents(ws: Workspace, fuel: nat, from: string, prefix: string, n: Node)
    requires NoComponents(n)
    ensures ResolveNode(ws, fuel, from, prefix, n) == Ok(n)
    decreases n, 1
  {
    match n
    case Element(tag, attrs, children) =>
      ResolveAllWithoutComponents(ws, fuel, from, prefix, children);
    case Document(children) =>
      ResolveAllWithoutComponents(ws, fuel, from, prefix, children);
    case Text(_) =>
    case Other(_) =>
  }

  lemma {:induction false} ResolveAllWithoutComponents(ws: Workspace, fuel: nat, from: string, prefix: string, ns: seq<Node>)
    requires forall k :: 0 <= k < |ns| ==> NoComponents(ns[k])
    ensures ResolveAll(ws, fuel, from, prefix, ns) == Ok(ns)
    decreases ns, 0
  {
    if |ns| > 0 {
      ResolveWithoutComponents(ws, fuel, from, prefix, ns[0]);
      assert forall k :: 0 <= k < |ns[1..]| ==> ns[1..][k] == ns[k + 1];
      ResolveAllWithoutComponents(ws, fuel, from, prefix, ns[1..]);
      assert [ns[0]] + ns[1..] == ns;
    }
  }

  /** The top-level build (empty scope) never binds: a root document without references comes
      out as it was read, bindings included. */
  lemma TopLevelUnbound(ws: Workspace, fuel: nat, from: string, doc: Node)
    requires NoComponents(doc)
    ensures Build(ws, fuel, from, Some(doc), "") == Ok(doc)
  {
    ResolveWithoutComponents(ws, fuel, from, "", doc);
  }

  /** The `<component>` elements of `n` in document order (pre-order), the snapshot that
      `getElementsByTagName('component')` takes at lib/build-xml.js:139. */
  function Refs(n: Node): (r: seq<Node>)
    ensures forall k :: 0 <= k < |r| ==> r[k].Element? && r[k].tag == "component"
    decreases n, 1
  {
    match n
    case Element(tag, _, children) => (if tag == "component" then [n] else []) + RefsAll(children)
    case Document(children) => RefsAll(children)
    case Text(_) => []
    case Other(_) => []
  }

  function RefsAll(ns: seq<Node>): (r: seq<Node>)
    ensures forall k :: 0 <= k < |r| ==> r[k].Element? && r[k].tag == "component"
    decreases ns, 0
  {
    if |ns| == 0 then [] else Refs(ns[0]) + RefsAll(ns[1..])
  }

  /** The snapshot is empty exactly when the tree holds no reference. */
  lemma {:induction false} RefsEmpty(n: Node)
    ensures Refs(n) == [] <==> NoComponents(n)
    decreases n, 1
  {
    match n
    case Element(tag, _, children) =>
      RefsAllEmpty(children);
    case Document(children) =>
      RefsAllEmpty(children);
    case Text(_) =>
    case Other(_) =>
  }

  lemma {:induction false} RefsAllEmpty(ns: seq<Node>)
    ensures RefsAll(ns) == [] <==> forall k :: 0 <= k < |ns| ==> NoComponents(ns[k])
    decreases ns, 0
  {
    if |ns| > 0 {
      RefsEmpty(ns[0]);
      RefsAllEmpty(ns[1..]);
      assert forall k :: 1 <= k < |ns| ==> ns[k] == ns[1..][k - 1];
    }
  }

  /** The loop stops at the first reference of the snapshot when that reference cannot be built:
      the whole component loop fails with its error. */
  lemma {:induction false} FirstReferenceFails(ws: Workspace, fuel: nat, from: string, prefix: string, n: Node)
    requires |Refs(n)| > 0 && Inline(ws, fuel, from, prefix, Refs(n)[0]).Err?
    ensures ResolveNode(ws, fuel, from, prefix, n) == Err(Inline(ws, fuel, from, prefix, Refs(n)[0]).error)
    decreases n, 1
  {
    match n
    case Element(tag, _, children) =>
      if tag != "component" {
        FirstReferenceFailsAll(ws, fuel, from, prefix, children);
      }
    case Document(children) =>
      FirstReferenceFailsAll(ws, fuel, from, prefix, children);
  }

  lemma {:induction false} FirstReferenceFailsAll(ws: Workspace, fuel: nat, from: string, prefix: string, ns: seq<Node>)
    requires |RefsAll(ns)| > 0 && Inline(ws, fuel, from, prefix, RefsAll(ns)[0]).Err?
    ensures ResolveAll(ws, fuel, from, prefix, ns) == Err(Inline(ws, fuel, from, prefix, RefsAll(ns)[0]).error)
    decreases ns, 0
  {
    if Refs(ns[0]) == [] {
      RefsEmpty(ns[0]);
      ResolveWithoutComponents(ws, fuel, from, prefix, ns[0]);
      assert RefsAll(ns) == RefsAll(ns[1..]);
      FirstReferenceFailsAll(ws, fuel, from, prefix, ns[1..]);
    } else {
      assert RefsAll(ns)[0] == Refs(ns[0])[0];
      FirstReferenceFails(ws, fuel, from, prefix, ns[0]);
    }
  }

  /** The first reference in document order that cannot be resolved decides the error: a
      missing key is reported against the file being built, and a component found in neither
      root is reported under its name, which defaults to the key. */
  lemma FirstBadReference(ws: Workspace, fuel: nat, from: string, prefix: string, n: Node)
    requires |Refs(n)| > 0
    ensures GetAttribute(Refs(n)[0].attrs, "key") == "" ==>
              ResolveNode(ws, fuel, from, prefix, n) == Err(UnknownKey(from))
    ensures var key := GetAttribute(Refs(n)[0].attrs, "key");
            var name := OrElse(GetAttribute(Refs(n)[0].attrs, "name"), key);
            key != "" && name !in ws.components && name !in ws.packages ==>
              ResolveNode(ws, fuel, from, prefix, n) == Err(ComponentNotFound(name, from))
  {
    if Target(ws, from, Refs(n)[0].attrs).Err? {
      FirstReferenceFails(ws, fuel, from, prefix, n);
    }
  }

  /** The root build fails on the first reference of its document when it has no key, with the
      root file named. */
  lemma RootBadReference(ws: Workspace, fuel: nat, from: string, doc: Node)
    requires |Refs(doc)| > 0 && GetAttribute(Refs(doc)[0].attrs, "key") == ""
    ensures Build(ws, fuel, from, Some(doc), "") == Err(UnknownKey(from))
  {
    FirstBadReference(ws, fuel, from, "", doc);
  }

  /** A page whose only reference sits inside markup and has a name but no key. */
  lemma NestedKeylessReference(ws: Workspace, fuel: nat, from: string)
    ensures Build(ws, fuel, from, Some(Document([Element("view", [], [Element("component", [Attr("name", "x")], [])])])), "")
         == Err(UnknownKey(from))
  {
    var ref := Element("component", [Attr("name", "x")], []);
    var view := Element("view", [], [ref]);
    var page := Document([view]);
    assert Refs(ref) == [ref] + [];
    assert [ref][1..] == [] && RefsAll([ref]) == [ref] + [];
    assert Refs(view) == [] + [ref];
    assert [view][1..] == [] && RefsAll([view]) == [ref] + [];
    assert Refs(page) == [ref];
    assert GetAttribute(ref.attrs, "key") == "";
    RootBadReference(ws, fuel, from, page);
  }

  /** The keys of the references leading to a component, joined with dots. */
  function Dotted(keys: seq<string>): string
    decreases |keys|
  {
    if |keys| == 0 then ""
    else if |keys| == 1 then keys[0]
    else Dotted(keys[..|keys| - 1]) + "." + keys[|keys| - 1]
  }

  lemma {:induction false} DottedEmpty(keys: seq<string>)
    requires forall k :: 0 <= k < |keys| ==> keys[k] != ""
    ensures Dotted(keys) == "" <==> |keys| == 0
    decreases |keys|
  {
    if |keys| > 1 {
      DottedEmpty(keys[..|keys| - 1]);
    }
  }

  /** Scopes nest: a component reached through references with keys `keys` (none of them empty,
      as the build demands) is bound in the scope of those keys joined with dots. */
  lemma ScopeIsKeyPath(keys: seq<string>, key: string)
    requires forall k :: 0 <= k < |keys| ==> keys[k] != ""
    ensures ChildPrefix(Dotted(keys), key) == Dotted(keys + [key])
  {
    DottedEmpty(keys);
    assert (keys + [key])[..|keys|] == keys;
  }

  /** More fuel never changes a result that did not run out of it: the depth bound only cuts off
      reference chains deeper than the fuel. */
  lemma {:induction false} BuildFuel(ws: Workspace, f: nat, g: nat, from: string, file: Option<Node>, prefix: string)
    requires f <= g && Build(ws, f, from, file, prefix) != Err(DepthExceeded)
    ensures Build(ws, g, from, file, prefix) == Build(ws, f, from, file, prefix)
    decreases f, 1
  {
    if file.Some? {
      var doc := if prefix != "" then Binder.BindNode(file.value, prefix, {}) else Ok(file.value);
      if doc.Ok? {
        ResolveFuel(ws, f, g, from, prefix, doc.value);
      }
    }
  }

  lemma {:induction false} ResolveFuel(ws: Workspace, f: nat, g: nat, from: string, prefix: string, n: Node)
    requires f <= g && ResolveNode(ws, f, from, prefix, n) != Err(DepthExceeded)
    ensures ResolveNode(ws, g, from, prefix, n) == ResolveNode(ws, f, from, prefix, n)
    decreases f, 0, n, 1
  {
    match n
    case Element(tag, attrs, children) =>
      if tag == "component" {
        InlineFuel(ws, f, g, from, prefix, n);
        if Inline(ws, f, from, prefix, n).Ok? {
          ResolveAllFuel(ws, f, g, from, prefix, children);
        }
      } else {
        ResolveAllFuel(ws, f, g, from, prefix, children);
      }
    case Document(children) =>
      ResolveAllFuel(ws, f, g, from, prefix, children);
    case Text(_) =>
    case Other(_) =>
  }

  lemma {:induction false} ResolveAllFuel(ws: Workspace, f: nat, g: nat, from: string, prefix: string, ns: seq<Node>)
    requires f <= g && ResolveAll(ws, f, from, prefix, ns) != Err(DepthExceeded)
    ensures ResolveAll(ws, g, from, prefix, ns) == ResolveAll(ws, f, from, prefix, ns)
    decreases f, 0, ns, 0
  {
    if |ns| > 0 {
      ResolveFuel(ws, f, g, from, prefix, ns[0]);
      if ResolveNode(ws, f, from, prefix, ns[0]).Ok? {
        ResolveAllFuel(ws, f, g, from, prefix, ns[1..]);
      }
    }
  }

  lemma {:induction false} InlineFuel(ws: Workspace, f: nat, g: nat, from: string, prefix: string, el: Node)
    requires el.Element? && f <= g && Inline(ws, f, from, prefix, el) != Err(DepthExceeded)
    ensures Inline(ws, g, from, prefix, el) == Inline(ws, f, from, prefix, el)
    decreases f, 0, el, 0
  {
    var key := GetAttribute(el.attrs, "key");
    var src := Locate(ws, OrElse(GetAttribute(el.attrs, "name"), key));
    if key != "" && src.Some? {
      BuildFuel(ws, f - 1, g - 1, src.value.path, src.value.file, ChildPrefix(prefix, key));
    }
  }

  // ---------------------------------------------------------------------------------------
  // Nested scopes: a root references component `a` under key `a`; `a` references component
  // `b` under key `c`; `b` shows the expression `{{w}}`. The expression ends up in scope `a.c`.

  /** A leaf component: one element holding one expression and no references. */
  lemma LeafBuild(ws: Workspace, fuel: nat, from: string, tag: string, w: string, prefix: string)
    requires prefix != "" && tag != "component"
    requires Rewrite.PlainToken(w) && Rewrite.LeadingWord(w) !in Binder.Literals
    ensures Build(ws, fuel, from, Some(Document([Element(tag, [], [Text("{{" + w + "}}")])])), prefix)
         == Ok(Document([Element(tag, [], [Text("{{" + prefix + "." + w + "}}")])]))
  {
    var lit := Binder.Literals;
    assert lit + {} == lit && lit + lit == lit;
    Binder.BindTextToken(w, prefix, lit);
    var txt := Text("{{" + w + "}}");
    var txt' := Text("{{" + prefix + "." + w + "}}");
    assert Binder.BindNode(txt, prefix, lit) == Ok(txt');
    assert [txt][1..] == [] && [txt'] + [] == [txt'];
    assert Binder.BindAll([txt], prefix, lit) == Ok([txt']);
    assert Binder.ScanAttrs([], 0, prefix, lit) == Ok(Binder.Scan([], lit));
    var el := Element(tag, [], [txt]);
    var el' := Element(tag, [], [txt']);
    assert Binder.BindNode(el, prefix, lit) == Ok(el');
    assert [el][1..] == [] && [el'] + [] == [el'];
    assert Binder.BindAll([el], prefix, lit) == Ok([el']);
    var out := Document([el']);
    assert Binder.BindNode(Document([el]), prefix, {}) == Ok(out);
    ResolveWithoutComponents(ws, fuel, from, prefix, out);
  }

  /** Binding leaves a reference element alone when its key and name hold no `{`. */
  lemma ReferenceUnbound(c: string, b: string, a: string)
    requires '{' !in c && '{' !in b
    ensures var ref := Element("component", [Attr("key", c), Attr("name", b)], []);
            Binder.BindNode(Document([ref]), a, {}) == Ok(Document([ref]))
  {
    var ref := Element("component", [Attr("key", c), Attr("name", b)], []);
    var lit := Binder.Literals;
    assert lit + {} == lit && lit + lit == lit;
    Binder.PlainAttrsKept(ref.attrs, 0, a, lit);
    assert Binder.BindNode(ref, a, lit) == Ok(ref);
    assert [ref][1..] == [] && [ref] + [] == [ref];
    assert Binder.BindAll([ref], a, lit) == Ok([ref]);
  }

  /** A component whose only content is a reference with key `c` to component `b`. */
  lemma ReferenceBuild(ws: Workspace, fuel: nat, from: string, a: string, c: string, b: string, tag: string, w: string)
    requires fuel >= 1 && a != "" && c != "" && b != "" && '{' !in c && '{' !in b
    requires tag != "component" && Rewrite.PlainToken(w) && Rewrite.LeadingWord(w) !in Binder.Literals
    requires b in ws.components && ws.components[b] == Some(Document([Element(tag, [], [Text("{{" + w + "}}")])]))
    ensures Build(ws, fuel, from, Some(Document([Element("component", [Attr("key", c), Attr("name", b)], [])])), a)
         == Ok(Document([Document([Element(tag, [], [Text("{{" + a + "." + c + "." + w + "}}")])])]))
  {
    assert "{{" + (a + "." + c) == "{{" + a + "." + c;
    assert "{{" + (a + "." + c) + "." + w + "}}" == "{{" + a + "." + c + "." + w + "}}";
    var ref := Element("component", [Attr("key", c), Attr("name", b)], []);
    ReferenceUnbound(c, b, a);
    assert GetAttribute(ref.attrs, "key") == c;
    assert GetAttribute(ref.attrs, "name") == b;
    assert OrElse(b, c) == b && ChildPrefix(a, c) == a + "." + c;
    assert Locate(ws, b) == Some(Source(ComponentFile(b), ws.components[b]));
    LeafBuild(ws, fuel - 1, ComponentFile(b), tag, w, a + "." + c);
    var inner := Document([Element(tag, [], [Text("{{" + a + "." + c + "." + w + "}}")])]);
    assert Inline(ws, fuel, from, a, ref) == Ok(inner);
    assert ResolveNode(ws, fuel, from, a, ref) == Ok(inner);
    assert [ref][1..] == [] && [inner] + [] == [inner];
    assert ResolveAll(ws, fuel, from, a, [ref]) == Ok([inner]);
  }

  /** Scopes compose along the reference chain: the expression of the grandchild component is
      qualified with the keys of both references, and the root itself is not bound. */
  lemma NestedScopes(ws: Workspace, fuel: nat, from: string, a: string, c: string, b: string, tag: string, w: string)
    requires fuel >= 2 && a != "" && c != "" && b != "" && '{' !in c && '{' !in b
    requires tag != "component" && Rewrite.PlainToken(w) && Rewrite.LeadingWord(w) !in Binder.Literals
    requires a in ws.components && ws.components[a] == Some(Document([Element("component", [Attr("key", c), Attr("name", b)], [])]))
    requires b in ws.components && ws.components[b] == Some(Document([Element(tag, [], [Text("{{" + w + "}}")])]))
    ensures Build(ws, fuel, from, Some(Document([Element("component", [Attr("key", a)], [])])), "")
         == Ok(Document([Document([Document([Element(tag, [], [Text("{{" + a + "." + c + "." + w + "}}")])])])]))
  {
    var ref := Element("component", [Attr("key", a)], []);
    var mid := Document([Document([Element(tag, [], [Text("{{" + a + "." + c + "." + w + "}}")])])]);
    assert Inline(ws, fuel, from, "", ref) == Ok(mid) by {
      assert GetAttribute(ref.attrs, "key") == a;
      assert GetAttribute(ref.attrs, "name") == "";
      assert OrElse("", a) == a && ChildPrefix("", a) == a;
      assert Locate(ws, a) == Some(Source(ComponentFile(a), ws.components[a]));
      ReferenceBuild(ws, fuel - 1, ComponentFile(a), a, c, b, tag, w);
    }
    assert ResolveNode(ws, fuel, from, "", ref) == Ok(mid);
    assert [ref][1..] == [] && [mid] + [] == [mid];
    assert ResolveAll(ws, fuel, from, "", [ref]) == Ok([mid]);
  }
}
