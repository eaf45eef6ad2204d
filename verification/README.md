# GoodWeb component expansion, in Dafny

GoodWeb is a static-site build tool. A site is a directory of components.
A component is a markup fragment plus a stylesheet. The tool expands each page
by replacing every component invocation with that component's own markup,
under a scope built from the invocation's attributes. The caller's content is
spliced in wherever the component places a `GoodWeb-Inner` marker. The
repository holds two implementations of that idea, and both are modelled.

**Rust build**
- `ComponentStore` (src/page_builder.rs): a name-keyed registry with an id
  counter. Modelled in `registry.dfy`.
- `build_page`, `compute_recursive_pre` and `compute_recursive` (the same
  file): the expansion engine, with its slot stack of pending caller content.
  Modelled in `page_builder.dfy`, with properties in
  `expansion_properties.dfy` and worked instances in `expansion_examples.dfy`.
- `TemplateEngine::compute_state` and `str_to_json` (src/templating.rs): scope
  derivation. Modelled in `templating.dfy`.
- `compute_components` and `get_component_extension`
  (src/website_parser.rs): registration of a walked directory. Modelled in
  `website_parser.dfy`.

**JavaScript build**
- src/pseudo-html-parser.js: the hand-written parser and serialiser.
  - `tokenize`, `domize`, `stringify` and `querySelector` are in
    `pseudo_html.dfy`.
  - Lexing lemmas are in `pseudo_html_lexing.dfy`.
  - The parse/serialise round trip is in `pseudo_html_round_trip.dfy`.
  - The source's own slips are in `pseudo_html_findings.dfy`.
- src/nodevisitor.js: the map-style tree visitor. Modelled in
  `node_visitor.dfy`.
- src/page-rendering.js: the renderer, modelled in `page_rendering.dfy`. It
  covers:
  - case-insensitive component lookup;
  - attribute computation;
  - the `render` mutator;
  - the `componentsUsed` dedup;
  - the in-place intersection of the used-component lists of all pages.
- src/parsing.js: file pairing by base name (`pairFiles`), `parseFiles` and
  `collect`. Modelled in `parsing.dfy`.

**Foreign code becomes parameters.** Handlebars rendering, the XML parser
(roxmltree) and the float parser are function-valued fields of
`Templating.Foreign` and `PageBuilder.Host`. The JavaScript `new Function`
evaluation is the `Eval` parameter of the renderer. File contents are a `read`
parameter, or data carried by a walk entry. The html/css converters are type
parameters with conversion functions.

**Fuel bounds the recursion.** A component may invoke itself, so the Rust
expansion is fuel-bounded:
- one unit is spent per component invocation and per `GoodWeb-Inner`;
- a run cut short yields `OutOfFuel`;
- `ExpansionProperties.ExpandNodesMoreFuel` shows that more fuel never
  changes a run that finished.

The JavaScript mutator is bounded the same way, by each nested traversal it
starts.

**Code facts the model follows closely:**
- The control tags are exactly `GoodWeb-Inner` and `GoodWeb-Styles`
  (src/page_builder.rs:441-447).
- A `GoodWeb-Inner` with an empty slot stack panics
  (src/page_builder.rs:319-321).
- Popped caller content is expanded under the scope current at the marker,
  that is the component's own scope (src/page_builder.rs:325-334). No scope is
  saved at the call site. `ExpansionExamples.SlotContentSeesComponentScope`
  exhibits this.
- After an invocation the slot stack is only truncated back to its former
  depth, never refilled (src/page_builder.rs:410-414). If the body consumed
  the caller's entries, the stack ends shorter than before.
  `ExpansionProperties.InvocationRestoresStack` states when the depth is
  restored.
- An unparseable component is not abandoned. `store_xml` leaves a default
  entry (id -1) under its name, and the reserved counter value is lost
  (src/page_builder.rs:92-119). A later invocation of that name panics on the
  parse, not on a lookup failure.

## Model

| member | source | states |
|---|---|---|
| Strings.Trim | src/page_builder.rs:309 | The trimmed text is a contiguous piece of the input. Only whitespace is removed, from either end, and a non-empty result starts and ends with non-whitespace. |
| Strings.UpperCaseNormalises | src/page-rendering.js:16 | Upper-casing leaves no lower-case letter, so a second pass changes nothing, and every name equals its upper-cased form ignoring case. |
| Strings.EqualsIgnoreCaseLetters | src/page-rendering.js:16 | Two names match ignoring case exactly when they have the same length and agree at every position up to the case of a letter. |
| Templating.F64ToJson | src/templating.rs:65-70 | A float becomes a JSON number exactly when it is finite; otherwise the original text is kept as a string. |
| Templating.StrToJson | src/templating.rs:57-62 | A solved value is stored as a number exactly when it parses as a finite float, with that float's value. Any other text is stored verbatim as a string. |
| Templating.ComputeState | src/templating.rs:23-37 | Derivation fails exactly when some attribute fails to solve. The child binds the parent's names plus the attribute names. A name no attribute mentions keeps the parent's value. A repeated name is bound by its last attribute. Every attribute is solved against the parent, never against a sibling's result. |
| Registry.FindComponent | src/page_builder.rs:77-79 | The lookup succeeds exactly for a stored name and returns that entry. |
| Registry.StoreXml | src/page_builder.rs:92-119 | The name is in the map afterwards, whatever the outcome, and no other entry changes. Success means the data parsed. On failure the counter still advances and the entry is left as it was, or defaulted. On success the data is stored, a fresh entry takes the counter's value, and an entry that already has an id keeps it with the counter unchanged. |
| Registry.StoreCss | src/page_builder.rs:121-142 | Storing a stylesheet always succeeds. A fresh name takes the counter's value and advances it by one. A name with an id keeps it, and the counter ends where it started. The xml data and all other entries are untouched. |
| Registry.StoreXmlValid | src/page_builder.rs:92-119 | Storing markup keeps the registry valid: the counter is non-negative, every id is -1 or below the counter, and assigned ids are pairwise distinct. |
| Registry.StoreCssValid | src/page_builder.rs:121-142 | Storing a stylesheet keeps the registry valid. |
| Registry.RegisterAllValid | src/page_builder.rs:145-152 | Any run of registrations keeps the registry valid and never lowers the counter. |
| Registry.RegisterAllKeepsIds | src/page_builder.rs:106-109 | Once a name has an id, no later registration removes the entry or changes its id. |
| Registry.LaterRegistrationGetsLargerId | src/page_builder.rs:145-147 | A name that first gets an id after another name already has one gets the larger id: ids increase in first-registration order. |
| Registry.FindComponentById | src/page_builder.rs:82-90 | Finding by id returns a stored component with that id, and nothing exactly when no stored component has it. In a valid registry the result is the one component with that id, whatever the map's iteration order. |
| PageBuilder.GetGoodWebComponent | src/page_builder.rs:441-447 | Only the exact names `GoodWeb-Inner` and `GoodWeb-Styles` are recognised, and both carry the control prefix. |
| PageBuilder.IsFirstCharUppercase | src/page_builder.rs:424-427 | An empty name has no answer. Otherwise the answer is whether the first character lies in `A`..`Z`. |
| PageBuilder.SolveAttributes | src/page_builder.rs:358-360 | Attributes are written in order, each with its value solved. Writing fails exactly when some value fails to solve. |
| PageBuilder.ExpandNodes | src/page_builder.rs:292-421 | A finished walk of siblings only appends output. Its usage list grows only at the end, stays free of duplicates, and gains only registered ids. Its slot stack only loses entries from the top. |
| PageBuilder.ExpandNode | src/page_builder.rs:303-417 | The same evolution guarantee, for one node of any kind. |
| PageBuilder.ExpandLiteral | src/page_builder.rs:349-373 | A lower-case element keeps the same guarantee: its children see the caller's scope and slot stack. |
| PageBuilder.InvokeBody | src/page_builder.rs:388-408 | Walking a component body starts from the caller's stack plus the pushed caller content. It only appends output, keeps the usage list duplicate-free, and records only registered ids. |
| PageBuilder.BuildPage | src/page_builder.rs:218-256 | A built page lists each used component id once, and every listed id belongs to a registered component. Its slot stack ends empty. |
| ExpansionProperties.InnerPopsTopEntry | src/page_builder.rs:318-337 | `GoodWeb-Inner` panics on an empty slot stack. Otherwise it pops exactly the top entry and walks that entry's nodes under the current scope. |
| ExpansionProperties.ExpandNodesAppend | src/page_builder.rs:303-418 | Walking `a + b` is walking `a`, then walking `b` from where `a` left off, under the same scope. A failure in `a` ends the walk. |
| ExpansionProperties.PlainExpansion | src/page_builder.rs:303-373 | Markup without component invocations expands to a reference rendering, whatever the registry and the fuel. Comments and processing instructions are dropped, text is solved and trimmed, and elements are written with solved attributes. The walk aborts exactly when some solve fails. |
| ExpansionProperties.InvocationRestoresStack | src/page_builder.rs:394-414 | After a successful invocation the slot stack is a prefix of what it was before. It has its former depth exactly when the body left the stack at least that deep. |
| ExpansionProperties.ExpandNodesFuel | src/page_builder.rs:292-421 | A walk that finishes without running out of fuel gives the same result with one more unit of fuel. |
| ExpansionProperties.ExpandNodesMoreFuel | src/page_builder.rs:292-421 | A walk that finishes without running out of fuel gives the same result with any larger fuel, so the bound only cuts runs short. |
| ExpansionExamples.NestedForwarding | src/page_builder.rs:318-337 | `<A>world</A>`, with A = `<B><GoodWeb-Inner/></B>` and B = `<span><GoodWeb-Inner/></span>`, gives `<span>world</span>`. Both ids are recorded in first-use order. |
| ExpansionExamples.ScopeIsolation | src/page_builder.rs:394-408 | Two invocations of `<p>{{name}}</p>` with different `name` attributes each render only their own value, and the component is recorded once. |
| ExpansionExamples.SlotContentSeesComponentScope | src/page_builder.rs:325-334 | Caller content spliced at a marker is solved under the component's scope: `<Box name="x">{{name}}</Box>` renders `x`, where the caller's own scope renders it empty. |
| ExpansionExamples.MissingComponentSkipped | src/page_builder.rs:380-386 | An invocation of an unregistered component adds nothing, and the walk goes on. |
| ExpansionExamples.MalformedExpressionAborts | src/page_builder.rs:309 | A text that fails to solve aborts the walk, whatever follows it, once the nodes before it have expanded. A failure among those earlier nodes, such as a panic or running out of fuel, comes first and is the outcome. The walk never succeeds. |
| WebsiteParser.GetComponentExtension | src/website_parser.rs:85-97 | `html` and `xml` classify as markup and `css` as a stylesheet, case-sensitively. Every other extension, including one that is not valid UTF-8, is invalid. |
| WebsiteParser.Classify | src/website_parser.rs:10-72 | One walked entry is skipped, aborts the whole computation, or makes one registration. It aborts exactly for a file with an extension whose stem is not UTF-8. It registers exactly for a readable file with a UTF-8 stem and a known extension, under that stem and with those contents. |
| WebsiteParser.Registrations | src/website_parser.rs:10-73 | Every registration call comes from some walked entry that classifies as that call. |
| WebsiteParser.ComputeFrom | src/website_parser.rs:10-75 | The loop fails exactly when some entry aborts. Otherwise the store is the one produced by the entries' registration calls in walk order, whatever each call returned. |
| WebsiteParser.ComputeComponents | src/website_parser.rs:6-76 | Computing the store fails exactly when some file with an extension has a stem that is not UTF-8. |
| WebsiteParser.ComputeComponentsValid | src/website_parser.rs:6-76 | The computed store is a valid registry. Its names are exactly the stems of the registration calls made. |
| WebsiteParser.RegisterAllKeys | src/website_parser.rs:44-64 | Every registration call leaves its name in the map, whether it returned `Ok` or not, and no other name enters. |
| WebsiteParser.SkippedEntriesAreInert | src/website_parser.rs:11-42 | Inserting a skipped entry anywhere in the walk leaves the outcome unchanged. Skipped entries are walk errors, directories, extensionless files, unreadable files and unknown extensions. |
| PseudoHtmlLexing.FeedAppend | src/pseudo-html-parser.js:222-331 | The lexer reads strictly left to right: feeding `a + b` is feeding `a`, then `b`. |
| PseudoHtmlLexing.PlainTextTokenizes | src/pseudo-html-parser.js:333-340 | Input without `<` yields a single text token holding all of it, or nothing when it is empty. |
| PseudoHtmlLexing.TextThenTagOpen | src/pseudo-html-parser.js:227-245 | Text before a `<` is yielded as one token only when it is non-empty, followed by the tag-open token. |
| PseudoHtmlLexing.WhitespaceSeparates | src/pseudo-html-parser.js:249-260 | Inside a tag, whitespace ends the buffered word and belongs to no token. |
| PseudoHtmlLexing.QuotedString | src/pseudo-html-parser.js:314-329 | A quoted string inside a tag is one text token of exactly the characters between the quotes, even when there are none. |
| PseudoHtmlLexing.OpenDelimiter | src/pseudo-html-parser.js:228-241 | Whatever text is buffered between tags, `<` yields it and opens a tag. |
| PseudoHtmlLexing.CloseDelimiter | src/pseudo-html-parser.js:278-293 | Inside a tag, `>` yields the buffered word, then the tag-close token, and returns to text. |
| PseudoHtmlLexing.EqualsDelimiter | src/pseudo-html-parser.js:261-273 | Inside a tag, `=` yields the buffered word, then the equals token, and stays in the tag. |
| PseudoHtmlLexing.SlashDelimiter | src/pseudo-html-parser.js:294-306 | Inside a tag, `/` yields the buffered word, then the slash token, and stays in the tag. |
| PseudoHtmlLexing.SelfCloseDelimiter | src/pseudo-html-parser.js:294-307 | Inside a tag, `/>` yields the buffered word, then the slash and tag-close tokens. |
| PseudoHtml.SkipToClose | src/pseudo-html-parser.js:148-166 | Reading after `</` yields the closing marker exactly when a `>` follows. Running out of tokens first throws. |
| PseudoHtml.Domize | src/pseudo-html-parser.js:94-205 | Every generator that finishes has consumed input. One that stops without a closing marker has consumed all of it. |
| PseudoHtml.QuerySelector | src/pseudo-html-parser.js:67-80 | The search returns the first node in preorder whose name equals the selector, and nothing when no node has that name. |
| PseudoHtmlRoundTrip.TokenizeStringify | src/pseudo-html-parser.js:218-341 | Lexing the serialisation of well-formed nodes gives exactly their token list. |
| PseudoHtmlRoundTrip.NodesDomize | src/pseudo-html-parser.js:94-205 | The corrected tree builder reads the token list of well-formed nodes back as those same nodes, and carries on with what follows. |
| PseudoHtmlRoundTrip.ParseStringify | src/pseudo-html-parser.js:23-65 | Parsing the serialisation of a well-formed document, with the tree builder corrected, gives the same document. |
| PseudoHtmlFindings.AttributeNameKept | src/pseudo-html-parser.js:127-143 | As written, after the first attribute every later text in the tag becomes another value under the first attribute's name. |
| PseudoHtmlFindings.RepeatedAttributeName | src/pseudo-html-parser.js:133-142 | `<a x="1" y="2"/>` reads back as written with attributes `x=1`, `x=y`, `x=2`, and correctly once the pending name is reset. |
| PseudoHtmlFindings.TextAfterElementLost | src/pseudo-html-parser.js:153-164 | As written, the token after a closing tag's `>` is consumed and lost. |
| PseudoHtmlFindings.TokenAfterClosingTagDropped | src/pseudo-html-parser.js:153-164 | `<a>b</a>c` reads back as written without the trailing `c`, and intact once that token is kept. |
| PseudoHtmlFindings.NestedAsWritten | src/pseudo-html-parser.js:181-199 | As written, an element whose only child is an element with text content throws. |
| PseudoHtmlFindings.NestedTrailingTextDropped | src/pseudo-html-parser.js:153-164 | As written, when text follows the inner element's closing tag, that text is the token thrown away, and the outer element is read without it and without throwing. |
| PseudoHtmlFindings.NestedTextAfterChildDropped | src/pseudo-html-parser.js:153-164 | `<div><p>a</p>b</div>` reads back as written as `<div><p>a</p></div>`, and intact once the token after `>` is kept. |
| PseudoHtmlFindings.NestedClosingTagsThrow | src/pseudo-html-parser.js:153-164 | `<div><p>a</p></div>` makes the parser as written throw, and reads back intact once the token after `>` is kept. |
| NodeVisitor.Traverse | src/nodevisitor.js:26-43 | A mutator exception ends the traversal, and a replaced node is returned as it is, children unvisited. A node handed back unchanged keeps its name, attributes, value and number of children. With no children, it is returned as itself. |
| NodeVisitor.TraverseInner | src/nodevisitor.js:45-55 | The result is a copy of the node differing at most in its children, with as many children as before. It fails exactly when traversing some child fails. |
| NodeVisitor.TraverseAll | src/nodevisitor.js:47-49 | Traversing the children keeps their number. |
| NodeVisitor.TraverseAllAppend | src/nodevisitor.js:47-49 | Children are traversed strictly in order. Traversing `xs + ys` is traversing `xs`, then `ys` from where `xs` left the accumulator. |
| NodeVisitor.IdentityTraversal | src/nodevisitor.js:26-55 | A mutator that hands every node back untouched makes traversal the identity on trees. |
| NodeVisitor.TraverseKeeps | src/nodevisitor.js:26-55 | A property of the accumulator that every mutator step keeps is kept by the whole traversal. |
| PageRendering.FindComponents | src/page-rendering.js:15-18 | The lookup returns the first component whose name equals the query ignoring case, and nothing when none does. |
| PageRendering.FindComponent | src/page-rendering.js:21-29 | The lookup throws exactly when the case-insensitive lookup finds nothing, with the source's message. Otherwise it returns that lookup's result. |
| PageRendering.FoundUnderOwnName | src/page-rendering.js:15-18 | A stored component is always found under its own name, possibly as an earlier entry with an equal name ignoring case. |
| PageRendering.ComputeValue | src/page-rendering.js:67-87 | A braced value is replaced by the evaluation of its inside, which may throw. Any other attribute is copied verbatim. The name is kept. |
| PageRendering.ComputeValues | src/page-rendering.js:62-94 | Computation fails exactly when some braced value's evaluation throws. Otherwise the attributes come out in order with their names kept, literals copied and braced values evaluated. |
| PageRendering.BindLiterals | src/page-rendering.js:83-87 | The new state binds the old names plus every literal attribute's name. A name no literal attribute mentions keeps its old value. A repeated name is bound by its last literal. |
| PageRendering.ComputeAttributes | src/page-rendering.js:62-94 | The computed attributes and the new state, produced together, failing exactly when the computed attributes fail. |
| PageRendering.EvaluationIgnoresSiblings | src/page-rendering.js:74-76 | A braced value is evaluated against the incoming state, not against the bindings of earlier literal siblings. The new state still holds those bindings. |
| PageRendering.ComputeState | src/page-rendering.js:41-50 | Without a component, the caller's state is returned unchanged. With one, the state comes from the attributes. Either way the computed attributes are returned. |
| PageRendering.NoteUse | src/page-rendering.js:146-148 | A component is appended to the used list only when no listed component has exactly its name. The list only grows at the end and stays free of repeated names. |
| PageRendering.RenderStep | src/page-rendering.js:118-168 | Every mutator step that does not throw only extends the used list, keeps its names distinct, and adds only stored components. |
| PageRendering.InnerStep | src/page-rendering.js:121-131 | A `GOODWEB-INNER` node outside any invocation throws. |
| PageRendering.ElementStep | src/page-rendering.js:135-143 | A plain element with attributes is replaced only by a copy with its attributes computed, differing at most in its children. A thrown evaluation halts the step. |
| PageRendering.ComponentStep | src/page-rendering.js:145-167 | A component node notes the component as used before its own document is traversed. |
| PageRendering.MutatorGrows | src/page-rendering.js:118-168 | Through every nested traversal, the used list only grows at the end, with distinct names and stored components. |
| PageRendering.PlainNodeUntouched | src/page-rendering.js:135-137 | A node that is neither a marker nor a component, and has no attributes, is handed back unchanged. |
| PageRendering.RenderPage | src/page-rendering.js:113-174 | The used list of a rendered page names each component once, and every listed component is in the store. |
| PageRendering.CommonMembers | src/page-rendering.js:186-199 | The reference intersection holds exactly the names of the first list that occur in every other list. |
| PageRendering.CommonOneMore | src/page-rendering.js:190-199 | Intersecting with one more list after the others is the same as intersecting with all the lists at once. |
| PageRendering.SpliceMissing | src/page-rendering.js:193-198 | The in-place `splice`/`j--` loop leaves exactly the names also in the other list, in their original order. |
| PageRendering.MinimumComponentsUsedEverywhere | src/page-rendering.js:188-199 | The final list is the first page's names that occur on every other page, in the first page's order. |
| PageRendering.VisitPages | src/page-rendering.js:112-184 | Visiting fails exactly when some page fails. Otherwise there is one record per page, in order, with its rendering and used list. |
| PageRendering.Render | src/page-rendering.js:101-213 | Rendering succeeds exactly when there is a page and every page renders. The result is every page's rendering, plus, for each name used on every page, the component the store gives for it. A failure is the halt of the first page that fails, every earlier page having rendered. With no pages it throws. |
| Parsing.SplitName | src/parsing.js:69-71 | Splitting a file name fails exactly when it contains no dot. |
| Parsing.JoinSplit | src/parsing.js:69-70 | Joining the dot-separated pieces of a name with dots gives the name back. |
| Parsing.NamePartsAtFirstDot | src/parsing.js:69-71 | The base name is the text before the first dot. The extension is everything after it, later dots included. |
| Parsing.AddFile | src/parsing.js:67-78 | Adding one file fails exactly when its name has no dot. It keeps each key listed once, each with an object holding `name`. |
| Parsing.GroupFiles | src/parsing.js:67-78 | Grouping yields keys without repeats, each with an object holding `name`. |
| Parsing.GroupKeyOrder | src/parsing.js:67-85 | The keys are listed in the order their first files were walked, which is the order the second loop visits the groups. |
| Parsing.GroupFilesFails | src/parsing.js:67-78 | Grouping fails exactly when some walked name has no dot. |
| Parsing.AddFileEffect | src/parsing.js:72-77 | A file sets its extension to its full path in the object of its `directory/base` key, creating that object with `name` when new. Every other key is untouched. |
| Parsing.GroupKeys | src/parsing.js:72-75 | The groups are exactly the `directory/base` keys of the walked files: files sharing one collapse into one entry. |
| Parsing.GroupLastWins | src/parsing.js:77 | For each key and extension, the path stored is that of the last such file in the walk. |
| Parsing.GroupName | src/parsing.js:75 | A group's `name` is the base name of the file that created it, unless one of its files has the extension `name`. |
| Parsing.PathEntryHasFile | src/parsing.js:72-77 | A group's object holds only `name` and the extensions of the files with its key. |
| Parsing.ReadGroup | src/parsing.js:85-103 | The yielded object has `path` plus the group's fields. `name` is copied, every other field is the contents of the file it names, and a field called `path` overrides the key. |
| Parsing.PairFiles | src/parsing.js:64-106 | Pairing fails exactly when some name has no dot. Otherwise there is one object per group. |
| Parsing.PairedContents | src/parsing.js:64-106 | The last file of each kind appears in its group's object under its extension, holding its contents, with the group's key as `path`. |
| Parsing.ParseFiles | src/parsing.js:49-58 | Each group becomes one result in order, with name and path passed through. A missing html or css field reaches the converter as the empty string, and a present one as its contents. |
| Parsing.Collect | src/parsing.js:113-121 | Every element is collected, in iteration order. |
| Parsing.ParseDirectory | src/parsing.js:38-40 | Parsing a directory fails exactly when some file name has no dot. Otherwise it is the parsed pairing of the walk. |

## Left out

- The directory walks, file reads and writes, logging (`println!`,
  `console.log`), the build-directory handling and the orchestration in
  src/main.rs and src/index.js are I/O. A walk is given as the sequence of its
  entries, and reading is a parameter or data on the entry.
- Handlebars rendering, roxmltree parsing, float parsing and the JavaScript
  `new Function` evaluation are foreign code. They are function-valued
  parameters (`Foreign`, `Host`, `Eval`), so nothing is claimed about what
  they compute.
- The XML writer's formatting and `end_document` are foreign. The output is
  the sequence of writer calls (`XmlToken`), not the final text.
- The `OwnerlessNode` re-parse of a node's raw text, and the `unsafe`
  transmutes behind it, are lifetime workarounds. Slot entries are node
  sequences, and re-parsing an element's own text is taken to give back its
  children.
- `GoodWeb-Styles` and unrecognised `GoodWeb-` tags only log; they are
  modelled as producing nothing.
- Stylesheet conversion and CSS aggregation belong to the orchestration layer.
- `Registry.StoreXml`: the counter is an unbounded integer, because the
  source's `i32` cannot wrap before 2^31 registrations.
- `Registry.FindComponentById`: the `HashMap` iteration order is a parameter
  listing every key once. For an id held by several entries the result
  depends on it; for a valid registry it cannot.
- `PageBuilder.ExpandNodes`: a run that exceeds its fuel ends in `OutOfFuel`,
  where the source recurses until the stack overflows.
- `PageRendering.RenderStep`: a mutator run that exceeds its fuel halts as
  `OutOfFuel`. Self-invoking components recurse without end in the source.
- `Strings.ToUpperCase`: only ASCII letters are mapped. JavaScript's
  `toUpperCase` also maps other scripts and expands some characters.
- `PseudoHtml.Stringify`: the model has no contract of its own; it is
  characterised by the round trip `PseudoHtmlRoundTrip.ParseStringify`.
- `PseudoHtml.Parse`: its contract only fixes the root. The content is given
  by `Domize`, the findings lemmas and the round trip.
- `NodeVisitor.Traverse`: every parsed node has a child list, so the
  `childNodes == null` shortcut is the empty-children case. Object identity
  (`!==`) is the mutator's explicit `Same`/`Replaced` answer.
- The sanity logging in the `NodeVisitor` constructor (a mutator returning a
  `GoodWeb-Inner` node) has no effect on the result.
- `PageRendering.ComputeValue`: building the `const` environment with
  `addslashes` and `JSON.stringify` is part of the evaluation parameter.
- `PageRendering.Render`: a page record keeps the page as given. The
  source's extra fields (`document`, `css`) are the rendering and data the
  model does not use.
- The `build` and `recursivelyGetFilesIterable` functions of src/parsing.js
  are file system work.

## Findings

| source | as written | input that shows it | evidently intended | confidence | as-written member | corrected member |
|---|---|---|---|---|---|---|
| src/pseudo-html-parser.js:133-142 | `attributeName` is never cleared after an attribute is pushed, so every later text token in the tag becomes a value under the first name | `<a x="1" y="2"/>` parses to attributes `x="1"`, `x="y"`, `x="2"` | reset the pending name after each attribute, so the tag keeps `x="1"` and `y="2"` | not executed | PseudoHtmlFindings.RepeatedAttributeName | PseudoHtmlRoundTrip.ParseStringify |
| src/pseudo-html-parser.js:157 | after the `>` of a closing tag, one more token is read and discarded | `<a>b</a>c` parses to just `<a>b</a>`; the trailing text is lost | stop right after the `>` and leave the next token to the caller | not executed | PseudoHtmlFindings.TokenAfterClosingTagDropped | PseudoHtmlRoundTrip.ParseStringify |
| src/pseudo-html-parser.js:157 | the discarded token can be the `<` of an enclosing closing tag, leaving a `/` outside any tag, which throws | `<div><p>a</p></div>` throws instead of parsing | the same fix: keep the token after `>` | not executed | PseudoHtmlFindings.NestedClosingTagsThrow | PseudoHtmlRoundTrip.ParseStringify |
