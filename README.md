# Component templates of labrador-cli, in Dafny

labrador-cli builds the markup of a mini-program page from reusable components. A page file may
hold `<component key="…" name="…"/>` elements. Each one is replaced by the markup of the component
it names. Every binding inside that markup is moved into the component's own scope, so that
`{{title}}` in a component referenced under the key `header` becomes `{{header.title}}`.

The core is `lib/build-xml.js`. This project models its four functions:

- `inText`: the quote-context scanner, as an imperative method with its loop
  (`QuoteScan.InText`). It is proved equal to a left-to-right quote state machine
  (`QuoteScan.StateAfter`).
- `replaceString`: the two nested regular-expression replaces. They are modelled as a per-character
  decision: whether `prefix + '.'` is inserted after this character (`Rewrite.TextMarks`,
  `Rewrite.ExprMarks`). The output inserts the scope after every marked character
  (`Rewrite.Weave`). A token that starts with `$` makes the callback throw
  (`word.match(/^\w+/)` is `null`); the model returns `Err(NullWordMatch)`.
- `bind`: the recursive walk over the parsed tree that rewrites attribute values, event handler
  names, `class` lists and text nodes, and grows the ignore set at `wx:for` elements. It is
  specified by the functions `Binder.BindNode` / `Binder.ScanAttrs` and implemented by methods
  that follow the source's loops (`Binder.Bind`, `Binder.BindAttributes`, `Binder.BindChildren`).
- `build`: the component resolver. It binds a file into its scope when the scope is not empty.
  Then it replaces every `<component>` element, in document order, by the document built for it
  one scope deeper. It is specified by `Resolver.Build` / `Resolver.ResolveNode` /
  `Resolver.Inline` and implemented by `Resolver.BuildFile` and its helpers.

The file system is a parameter: a `Workspace` maps component names to the parsed content of
`src/components/<name>/<name>.xml` and of `node_modules/<name>/index.xml`. A name that is a key
of the map is a directory that exists. The value `None` is a file that cannot be read. The parsed
tree is a value (`Dom.Node`). The in-place updates of the source (`attr.value = …`,
`replaceData`, `replaceChild`) are methods that return the updated tree.

Two details of the code worth knowing:

- `class` values are split on single spaces (`split(' ')`), not on any whitespace. Two
  spaces in a row produce an empty class token, and its twin `<scope>-` is emitted.
- `replaceString` has no empty-scope check of its own. An empty scope would insert a bare
  `.`. The empty scope is only harmless because `build` never calls `bind` with it
  (`Resolver.TopLevelUnbound`).

## Model

| member | source | states |
|---|---|---|
| QuoteScan.InText | lib/build-xml.js:32-49 | the result is true exactly when the first `n` characters (all of them when `n` is past the end) end inside a quoted literal; the fast path and the loop agree |
| QuoteScan.SearchQuote | lib/build-xml.js:33-34 | the index of the first `"` or `'`, and -1 exactly when there is none |
| QuoteScan.NoQuoteOutside | lib/build-xml.js:33-34 | a prefix without quotes is never inside a literal, which justifies the early `return false` |
| QuoteScan.InsideIff | lib/build-xml.js:37-48 | the scan ends inside a literal opened by `q` if and only if some `q` was read while no literal was open and no later `q` not preceded by a backslash closed it |
| Rewrite.MustacheAt | lib/build-xml.js:59 | a match of `/\{\{[^}]+\}\}/` starts at `i` exactly when the result is its length, and there is none when the result is `None` |
| Rewrite.LeadingWord | lib/build-xml.js:62 | the longest run of word characters at the start of the token |
| Rewrite.EraseWeave | lib/build-xml.js:64 | the woven text has exactly `prefix + '.'` after every marked character and nothing else: erasing it gives the original text back |
| Rewrite.WeaveErase | lib/build-xml.js:64 | conversely, a text that erases to `s` under the marks (each marked character followed by exactly the insertion, nothing missing or left over) is the weave of `s` |
| Rewrite.ReplaceStringUnique | lib/build-xml.js:58-67 | a successful rewrite is the only text that erases to the input under the scan's marks |
| Rewrite.ReplaceString | lib/build-xml.js:58-67 | the rewrite fails exactly when the scan fails (a token starting with `$`); a successful result strictly erases to the input: it is the input with exactly `prefix + '.'` after each marked character, with nothing else added, dropped or left over (unique by `Rewrite.ReplaceStringUnique`) |
| Rewrite.TextMarks | lib/build-xml.js:59-66 | one insertion decision per character of the text; which characters are marked is stated by TextMarkSound, TextMarkComplete, ScanPlain and TextMarksShift |
| Rewrite.ScanPlain | lib/build-xml.js:59 | the outer scan passes over a stretch where no expression starts without marking any of it |
| Rewrite.TextMarksShift | lib/build-xml.js:59 | the outer scan from an offset depends only on the text from there on: the rest of a text is scanned as it would be on its own |
| Rewrite.MustacheAtSpan | lib/build-xml.js:59 | at most one match of the outer pattern starts at an offset, and the scan finds it |
| Rewrite.ReplaceStringWithoutMustache | lib/build-xml.js:59 | a text without any `{{…}}` expression is returned unchanged |
| Rewrite.ExprMarks | lib/build-xml.js:60-64 | one decision per character of the expression; which characters are marked is stated by ExprMarkSound, ExprMarkComplete, ExprDollarFails and ExprFailsOnDollar |
| Rewrite.ExprMarkSound | lib/build-xml.js:60-64 | every qualified token follows a lead character, starts with a letter or `_`, has a leading word that is not ignored, and its lead is not inside a quoted literal |
| Rewrite.ExprMarkComplete | lib/build-xml.js:60-64 | conversely, every such token behind a lead other than `$` is qualified |
| Rewrite.ExprDollarFails | lib/build-xml.js:62 | a token starting with `$` behind such a lead makes the rewrite fail, whatever the ignore set |
| Rewrite.ExprFailsOnDollar | lib/build-xml.js:62 | the rewrite of an expression fails only where a lead is followed by `$` |
| Rewrite.TextMarkSound | lib/build-xml.js:59-66 | every insertion lies inside a `{{…}}` expression that the scan actually matched (one it reaches, `Rewrite.Reaches`), right after a lead of a non-ignored token that is unquoted within that match; text outside expressions is never changed |
| Rewrite.TextMarkComplete | lib/build-xml.js:59-66 | conversely, in every expression the scan reaches, every unquoted lead (other than `$`) of a token whose leading word is not ignored gets the scope inserted after it |
| Rewrite.ScanExpressionThenRest | lib/build-xml.js:59-66 | in `x e y` with no `{` in `x`, nothing in `x` is marked, `e` is marked as the inner replace decides, and `y` as it would be on its own |
| Rewrite.ExpressionThenRest | lib/build-xml.js:58-67 | `x{{w}}y` (no `{` in `x`) becomes `x{{prefix.w}}` (or `x{{w}}` when the leading word of `w` is ignored) followed by the rewrite of `y`, and fails exactly when that fails |
| Rewrite.ExpressionInText | lib/build-xml.js:58-67 | `x{{w}}y` with no `{` in `x` and `y` becomes `x{{prefix.w}}y`, or stays as it is when the leading word of `w` is ignored |
| Rewrite.TwoExpressions | lib/build-xml.js:58-67 | in running text with two expressions, the token of the second is qualified as well as the token of the first |
| Rewrite.GreetingExample | lib/build-xml.js:58-67 | `Hello {{name}}!` in scope `p` becomes `Hello {{p.name}}!` |
| Rewrite.SingleExpression | lib/build-xml.js:59 | a text that is one expression is rewritten exactly as the inner replace decides |
| Rewrite.SingleToken | lib/build-xml.js:58-67 | `{{w}}` becomes `{{prefix.w}}` when the leading word of `w` is not ignored, and stays as it is when it is |
| Rewrite.RewriteTwice | lib/build-xml.js:58-67 | the rewrite is not idempotent: rewriting `{{prefix.w}}` again gives `{{prefix.prefix.w}}` |
| Dom.GetAttributeFirst | lib/build-xml.js:144-145 | `getAttribute` gives the value of the first attribute with that name, and `""` when there is none |
| Binder.Substitute | lib/build-xml.js:82-83 | same length, every `.` replaced by the given character and every other character kept |
| Binder.HandlerNames | lib/build-xml.js:97 | the handler test (`bind` or `catch` followed by at least one word character) matches `bindtap` and `catchtap` but not a bare `bind`, `catch` or `bind-tap`, and none of `class`, `wx:for`, `wx:for-index`, `wx:for-item` |
| Binder.Split | lib/build-xml.js:110 | `split(' ')` yields at least one piece and no piece holds a space |
| Binder.JoinSplit | lib/build-xml.js:110 | joining the pieces with single spaces gives the value back |
| Binder.SplitJoin | lib/build-xml.js:110 | splitting a join of space-free pieces gives the pieces back |
| Binder.ExpandClassTokens | lib/build-xml.js:109-111 | the expanded class list holds each original token in order, each followed by its scoped twin `<classPrefix>-<token>` |
| Binder.ExpandTwo | lib/build-xml.js:110 | `x y` expands to `x cp-x y cp-y` |
| Binder.ClassExample | lib/build-xml.js:83-110 | the attribute `class="foo bar"` bound in scope `a.b` becomes `foo a-b-foo bar a-b-bar`, the class prefix derived from the scope |
| Binder.ClassValue | lib/build-xml.js:92-111 | a `class` value is expanded with the hyphenated scope after its bindings, if any, are rewritten; a failed rewrite is the result |
| Binder.HandlerValue | lib/build-xml.js:92-99 | an event handler attribute gets the underscored scope and `_` in front of its value, after its bindings, if any, are rewritten; a failed rewrite is the result |
| Binder.HandlerExample | lib/build-xml.js:97-98 | `bindtap="onTap"` in scope `a.b` becomes `a_b_onTap` |
| Binder.PlainValueKept | lib/build-xml.js:92-111 | an attribute that is no handler, no `class` and holds no `{` keeps its value |
| Binder.PlainAttrsKept | lib/build-xml.js:87-112 | the attribute loop over such attributes changes neither them nor the ignore set |
| Binder.BindAttributes | lib/build-xml.js:87-112 | the attribute loop, updating attributes in place and growing the ignore set at `wx:for`, computes the specified attributes and ignore set |
| Binder.Bind | lib/build-xml.js:75-128 | the recursive walk computes the specified bound tree, or the first error |
| Binder.BindChildren | lib/build-xml.js:123-127 | the child loop binds every child with the node's ignore set, in order, stopping at the first error |
| Binder.ScanKeepsNames | lib/build-xml.js:87-112 | the attribute loop changes values only, never names, count or order, and only adds to the ignore set |
| Binder.BindKeepsShape | lib/build-xml.js:75-128 | `bind` never adds, removes, reorders or renames nodes or attributes |
| Binder.BindAllPointwise | lib/build-xml.js:123-127 | siblings are independent: the child loop succeeds if and only if every child binds on its own, and then each result is that child's own |
| Binder.ScanThrough | lib/build-xml.js:87-112 | running the attribute loop up to `j` and then on from `j` is running the whole loop |
| Binder.NoLoopKeepsIgnores | lib/build-xml.js:102-107 | without a `wx:for` attribute in between the ignore set stays as given, so a `wx:for` value is rewritten before its own loop names are ignored |
| Binder.ScanKeepsIgnores | lib/build-xml.js:105-106 | the attribute loop only adds to the ignore set |
| Binder.GetAttributeUpdate | lib/build-xml.js:103-104 | updating an attribute in place changes what `getAttribute` reads only for that attribute's name |
| Binder.LoopNamesDefault | lib/build-xml.js:103-104 | a `wx:for` element declares the values of its first `wx:for-index` and `wx:for-item` attributes, and `index` and `item` where those are missing or empty |
| Binder.LoopNamesLater | lib/build-xml.js:102-107 | after a `wx:for` attribute its loop names (`index` and `item` by default) are ignored for every later attribute |
| Binder.LoopNamesInChildren | lib/build-xml.js:101-127 | the children of a `wx:for` element are bound with the literals, the caller's names and the loop names all ignored |
| Binder.BindTextToken | lib/build-xml.js:114-120 | a text `{{w}}` becomes `{{prefix.w}}` unless its leading word is a literal or ignored |
| Resolver.Locate | lib/build-xml.js:147-156 | no source exactly when the name is in neither root; the components directory wins over the packages |
| Resolver.Target | lib/build-xml.js:144-156 | a reference fails with `UnknownKey` exactly when its key is missing or empty, with `ComponentNotFound` (the name defaulting to the key) exactly when the key is set and neither root has the name, and otherwise yields its key and the located source |
| Resolver.ChildPrefix | lib/build-xml.js:157-162 | the scope of a referenced component ends with its key; inside a non-empty scope it is that scope, a dot and the key; at the top it is the key alone |
| Resolver.InlineComponent | lib/build-xml.js:141-164 | one reference: missing key, unknown component and depth errors, otherwise the component built one scope deeper |
| Resolver.ResolveChildren | lib/build-xml.js:141-165 | the references under a list of siblings are resolved in document order, stopping at the first error |
| Resolver.ResolveTree | lib/build-xml.js:139-165 | the component loop over a subtree computes the specified resolved tree |
| Resolver.BuildFile | lib/build-xml.js:130-167 | `build(from, prefix)` on the read content: read error, binding only when the scope is not empty, then the component loop |
| Resolver.ResolveSplices | lib/build-xml.js:163-164 | each reference element is replaced, at its own position, by the document built for it; every other node keeps its tag, attributes and text |
| Resolver.ResolveWithoutComponents | lib/build-xml.js:139-165 | a tree without references comes out of the component loop unchanged |
| Resolver.TopLevelUnbound | lib/build-xml.js:135-137 | the top-level build with the empty scope does not bind: a root without references is returned as read |
| Resolver.Refs | lib/build-xml.js:139 | the snapshot of `getElementsByTagName`: the references of a tree in document order, each a `<component>` element |
| Resolver.RefsEmpty | lib/build-xml.js:139 | the snapshot is empty exactly when the tree holds no reference |
| Resolver.FirstReferenceFails | lib/build-xml.js:139-164 | when the first reference of the snapshot cannot be built, the component loop fails with that reference's error, wherever in the tree it sits |
| Resolver.FirstBadReference | lib/build-xml.js:144-156 | the first reference in document order with no key fails with `Unknown component key in <from>`; one found in neither root fails with `Can not find components "<name>"`, the name defaulting to the key |
| Resolver.RootBadReference | lib/build-xml.js:139-146 | a root document whose first reference in document order has no key fails with the root file named |
| Resolver.NestedKeylessReference | lib/build-xml.js:139-146 | a page whose only reference, nested inside a `<view>`, has a name but no key fails with `Unknown component key` |
| Resolver.ScopeIsKeyPath | lib/build-xml.js:157-162 | scopes nest: the scope of a component is the keys of the references leading to it, joined with dots |
| Resolver.BuildFuel | lib/build-xml.js:163 | the depth bound only cuts off reference chains deeper than it; a result that did not hit it is the same with more depth |
| Resolver.InlineFuel | lib/build-xml.js:163 | the same for a single reference |
| Resolver.LeafBuild | lib/build-xml.js:130-167 | a leaf component holding `{{w}}`, built in scope `p`, holds `{{p.w}}` |
| Resolver.ReferenceBuild | lib/build-xml.js:141-164 | a component holding a reference with key `c` to a leaf, built in scope `a`, holds the leaf bound in scope `a.c` |
| Resolver.NestedScopes | lib/build-xml.js:130-167 | root → `a` → (key `c`) `b`: the expression `{{w}}` of `b` ends up as `{{a.c.w}}`, and the root is not bound |
| Errors.Message | lib/build-xml.js:146-155 | both errors the build raises itself end with the path of the referencing file, and the not-found message names the component between double quotes |

## Left out

- File reading (`fs.readFileSync`) and the directory test (`util.isDirectory`) are the `Workspace` parameter. `path.join` normalisation and the absolute working-directory prefix of the paths are not modelled; paths are relative.
- The XML parser and serializer (`xmldom`) are not modelled; the tree is given parsed. Comments, CDATA sections and processing instructions are carried as opaque `Other` nodes, as `bind` leaves them alone.
- `buildXML`, the generator that writes the output file and logs, is I/O and is not modelled.
- In-place mutation, aliasing and parent pointers: the tree is a value. The methods return the updated tree instead of changing shared nodes. `replaceChild` with a document is modelled as a `Document` child at the element's position, which serializes to the document's children.
- The live `NodeList` of `getElementsByTagName` is modelled as a document-order walk over a snapshot. A reference nested inside another reference element is still built, so its errors surface, but its result stays in the detached element.
- Dom.GetAttribute reads the first attribute with a given name; xmldom reads the last. A tree with two attributes of the same name, which the parser does not produce, would read differently.
- Strings are sequences of characters. UTF-16 code units, surrogate pairs and regular-expression Unicode details are not modelled.
- JavaScript object keys: the ignore map is a set of strings, and membership is `hasOwnProperty`. Two keys behave otherwise in the source and are not modelled. A loop name `__proto__` is not stored as an own property by `ignores[item] = true`; the model adds it to the set. A loop name `hasOwnProperty` replaces the method on that object (lib/build-xml.js:105-106), so the next token check (lib/build-xml.js:63) throws a `TypeError`, in the later attributes and in every descendant, since lib/build-xml.js:76-81 copies the key; the model adds the name to the set and goes on.
- Resolver.Build: reference cycles, which make the source recurse until the stack overflows, are cut by a `fuel` depth bound that returns `DepthExceeded`. Resolver.BuildFuel shows that the bound changes nothing else.
- Binder.BindAttributes: the `wx:for` step, which the source runs between the handler step and the class step, is taken after the class step (Binder.BindValue). The two never apply to the same attribute.
- Rewrite.ExprMarkComplete: stated only for leads that are not themselves token characters. A `$` lead can be swallowed by the token in front of it.
- Rewrite.SingleToken: stated for expressions that are one plain token. Such expressions placed in running text are covered by Rewrite.ExpressionThenRest and Rewrite.TwoExpressions; expressions holding several tokens, by Rewrite.ExprMarkSound and Rewrite.ExprMarkComplete.
- Rewrite.TextMarkComplete: stated for leads that are not themselves token characters, as Rewrite.ExprMarkComplete is.
- Binder.LoopNamesLater: requires that the `wx:for-index` and `wx:for-item` values hold no `{`. When they do, the source reads their rewritten values, and the model does too (Binder.ScanAttrs), but the lemma does not state which names result.
- Binder.LoopNamesInChildren: requires, like Binder.LoopNamesLater, that the `wx:for-index` and `wx:for-item` values hold no `{`.
- Errors.Message: only the first two texts come from the build code. The other three stand for what the host runtime reports and are not checked against it.
