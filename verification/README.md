# chopsgen in Dafny

A model of the static-site renderer of chopsgen (`chopsgen.js`). A site is a
registry of pages keyed by absolute permalink. Each page has a widget body.
Rendering turns every page into one HTML document, or into a PHP file for a
404 page. The renderer threads a state through the widget tree: the
NiceWidget counter, the widget-token stack and the page registry.

The modules follow the source's structure:

- `Wrappers`: `Option`, `Result` and the error taxonomy. Every `throw` of
  the generator becomes an `Err`, and every `null` it hands back becomes
  `None`.
- `Strings`: decimal printing of the NiceWidget counter, and prefix and
  suffix predicates.
- `Escape`: `htmlEscape` and `attrEscape`, the replace chains they are
  built from, and an unescaping inverse.
- `Paths`: `Path`, `MaskedPath` (a `Loc`), `toPath`, `relDirs`, `abs`,
  `plus`, `from`, `linkWouldBeRedundant` and `familyDirs`.
- `Widgets`: the widget, dependency, page and state datatypes, the
  `HtmlTag` validator and `pushState`/`unpushState`.
- `Render`: the three rulebooks `manualWidgetToText`, `widgetToTitle` and
  `widgetToHtml`.
- `Dependencies`: the `includeOnceJs` registry, `renderCssDependency`,
  `renderJsDependency` and the include-once expansion of
  `renderJsDependencies`.
- `Paragraphs`: `arrFlat` and the paragraph grouper `widgetEnv[ " block" ]`.
- `Pages`: `definePage`, `renderPage`, `renderPages` and
  `renderPagesToText`.

Points where the code does something a reader might not expect:

- `renderPage` writes the JS dependencies into `<head>`, before the CSS
  (`Pages.ShellLayout`, `Pages.HeadBounds`, `Pages.RenderHtml`).
- `toPath` never resolves `..`. A relative link that climbs out of its base
  never parses back, for any target and base (`Paths.ResolveClimbFails`).
- `attrEscape` uses string `replace`, which rewrites only the FIRST `"` and
  the FIRST `'` of the escaped text. A second double quote survives
  (`Escape.AttrEscapeLeavesLaterQuotes`).
- The rules for strings and HtmlRawWidgets return no `js` or `css` field.
  An array reads a missing field as `[]`, but a NiceWidget's `widgetHtml`
  generator passes it to `concat`, which appends an `undefined`.
  `renderPage` then reads the `type` of that `undefined` and throws
  (`Pages.UndefinedJsFails`).
- The `/404/` test in `linkWouldBeRedundant` has no effect and is not
  modelled.

## Model

| member | source | states |
|---|---|---|
| Strings.ParseNatToString | chopsgen.js:684 | the decimal text of the counter spliced into a NiceWidget token reads back as the counter |
| Strings.NatToStringInjective | chopsgen.js:684 | different counters print differently |
| Escape.HtmlEscape | chopsgen.js:248-258 | the escaped text has no `<` or `>`, and unescaping it gives back the input |
| Escape.HtmlEscapeIsPerChar | chopsgen.js:248-258 | the six whole-string replacements, `&` first, equal escaping each character on its own: an entity written by one replacement of the chain is not rewritten by a later one |
| Escape.HtmlEscapeAppend | chopsgen.js:248-258 | escaping distributes over concatenation, so escaping the parts of an array and joining them is escaping the joined text |
| Escape.HtmlEscapePlain | chopsgen.js:248-258 | text with none of the six special characters is left unchanged |
| Escape.HtmlEscapeInjective | chopsgen.js:248-258 | different texts escape differently |
| Escape.AttrEscape | chopsgen.js:260-264 | the result has no angle brackets; of the `"` and of the `'` characters exactly one less survives when there was any; unescaping the result (with `&quot;` and `&#39;`) gives back the input |
| Escape.AttrEscapeIsPerChar | chopsgen.js:260-264 | `attrEscape` equals escaping each character on its own, with the first `"` written `&quot;` and the first `'` written `&#39;` |
| Escape.AttrEachIsFirstQuotes | chopsgen.js:260-264 | the per-character definition with a `"` or `'` rewrite still pending equals the per-character escape followed by the pending first-occurrence replacements |
| Escape.ReplaceFirstAfter | chopsgen.js:262-263 | a single-match `replace` passes over a prefix that lacks the character |
| Escape.UnescapeAttrEach | chopsgen.js:260-264 | unescaping undoes the per-character definition of `attrEscape` |
| Escape.AttrEscapeFirstQuote | chopsgen.js:260-264 | in a text without `'`, the first `"` becomes `&quot;` and the text on either side is escaped exactly as `htmlEscape` does |
| Escape.AttrEscapeLeavesLaterQuotes | chopsgen.js:260-264 | a text with two double quotes still has a double quote after attribute escaping |
| Escape.AttrEscapeQuoteFree | chopsgen.js:260-264 | at most one quote of each kind means no quote survives |
| Paths.MakePath | chopsgen.js:321-328 | a path is built exactly when no directory segment is empty, `.`, `..`, or holds `?` or `#`; otherwise InvalidPath |
| Paths.ToPath | chopsgen.js:348-371 | a path that parses has valid segments; an absolute spelling parses to a path whose `abs` is that spelling |
| Paths.ToPathAbs | chopsgen.js:348-371 | `toPath( p.abs() )` gives back `p` for every printable path |
| Paths.AbsInjective | chopsgen.js:391-395 | two printable paths with the same absolute spelling are equal |
| Paths.SplitDirsComplete | chopsgen.js:348-371 | the two absolute-path regular expressions accept every segment list followed by a file part and split it back into those parts |
| Paths.Plus | chopsgen.js:401-408 | appending succeeds exactly on a directory path (empty file) and appends the child's directories and takes its file; otherwise NotADirectory |
| Paths.RelDirsSpec | chopsgen.js:308-317 | the relative directory part climbs once per base directory past the common prefix and then descends into the rest of the target |
| Paths.FromSameDirs | chopsgen.js:414-418 | a link within one directory is the bare file name |
| Paths.FromMasked | chopsgen.js:414-418 | a link from a masked location is the host-absolute spelling under the base path |
| Paths.ToPathRelative | chopsgen.js:356-369 | a relative spelling parses under the base's directories, or fails InvalidPath when the joined path is invalid |
| Paths.ResolveFrom | chopsgen.js:414-418 | a downward link from a base resolves back, against that base, to the target path |
| Paths.ClimbLink | chopsgen.js:308-317 | a link that starts with `../` splits into its `..` segments, the directories after them and the file |
| Paths.ResolveClimbFails | chopsgen.js:308-317 | for every printable target and every plain base whose directories are not all shared with the target, the link is computed and then fails InvalidPath when parsed against that base: `toPath` rejects `..` |
| Paths.RedundantIffEqual | chopsgen.js:378-385 | a link to a plain path is redundant exactly when both have the same absolute spelling |
| Paths.RedundantMasked | chopsgen.js:378-385 | against a masked location, a link is redundant exactly when it targets the masked page's real path |
| Paths.MaskedReceiverThrows | chopsgen.js:387-435 | every path operation called on a MaskedPath fails |
| Paths.FamilyDirs | chopsgen.js:426-433 | one directory path per prefix of the directories, shortest first, each of which extends to the path again |
| Widgets.CheckAttrs | chopsgen.js:440-451 | attributes pass exactly when every name matches `[-:a-z]*` and no two names are equal |
| Widgets.MakeTag | chopsgen.js:437-456 | a tag is built exactly when its name matches `[-:a-z][-:a-z0-9]*` and its attributes pass; a bad name is BadTagName |
| Widgets.Unpush | chopsgen.js:597-606 | popping fails exactly on an empty token stack and otherwise drops the top only |
| Widgets.UnpushPush | chopsgen.js:585-606 | popping undoes pushing |
| Widgets.NiceTokenDistinct | chopsgen.js:684 | NiceWidgets rendered with different counters get different tokens |
| Render.ManualText | chopsgen.js:714-742 | manual text succeeds exactly on strings, arrays and tokens, and a token needs a non-empty stack; the text is the widget's plain text with the top token written in for each token, and the plain text itself when there is no token |
| Render.ManualSeq | chopsgen.js:714-742 | an array's manual text is the joined plain text of its items, with the top token written in for each token |
| Render.ManualTextTopOnly | chopsgen.js:733-742 | manual text reads only the top of the token stack |
| Render.ManualTextStateFree | chopsgen.js:714-742 | manual text without a token does not depend on the state at all |
| Render.Title | chopsgen.js:276-306 | a title renders exactly when it is strings and arrays; it is the escaped plain text, free of markup and decoding back to that text |
| Render.Html | chopsgen.js:270-712 | rendering keeps the token stack and the registry and never lowers the counter; each NiceWidget visited raises the counter by one; a string renders to its escaped text; strings and raw HTML have no `js` or `css` field, while arrays, DepsWidgets and NiceWidgets always have both; a bare token has no rule |
| Render.HtmlNice | chopsgen.js:678-712 | a NiceWidget takes a fresh counter value for its token, keeps the state otherwise, and always has `js` and `css` lists |
| Render.HtmlSeq | chopsgen.js:282-299 | an array keeps the state, raises the counter once per NiceWidget inside it, and always has `js` and `css` lists |
| Render.HtmlGens | chopsgen.js:700-705 | the HTML generators keep the state, raise the counter once per NiceWidget they render, and always give `js` and `css` lists |
| Render.HtmlSeqSingle | chopsgen.js:282-299 | an array of one widget renders as that widget, with a missing `js` or `css` field read as the empty list |
| Render.WidgetHtmlOfString | chopsgen.js:655-705 | a NiceWidget whose `widgetHtml` generator is a string gets one `undefined` in its `js` list and one in its `css` list |
| Render.NameLink | chopsgen.js:506-522 | a NameNavLink to a page missing from the registry fails UnknownPage |
| Render.Link | chopsgen.js:533-541 | a NavLink to a masked path fails |
| Render.RenderAttrs | chopsgen.js:462-472 | the rendered attributes of a valid tag hold no angle brackets; no attributes render as the empty text |
| Render.RenderAttrsCons | chopsgen.js:462-472 | the attributes render as the first pair ` name="…"` with its value's text attribute-escaped, then the rest in order; the first failure stops the rendering |
| Render.HrefText | chopsgen.js:462-472 | the `href` of a link to a plain path is ` href="…"` around the attribute-escaped output of `from` |
| Render.HrefResolves | chopsgen.js:533-541 | the `href` of a link to a plain path always renders, unescapes to the output of `from`, and, for a printable target under every directory of the base, parses back against the base to the target |
| Render.ManualGen | chopsgen.js:624-653 | a manual generator succeeds exactly on manual widgets and gives their plain text with its own token written in for each token |
| Render.JsGens | chopsgen.js:690-694 | one JS value per generator, in order: the include-once bundle, or embedded code that is the generator's text with the token written in |
| Render.CssGens | chopsgen.js:695-699 | one embedded CSS value per generator, in order, whose code is the generator's text with the token written in |
| Render.HtmlSeqAppend | chopsgen.js:284-299 | rendering an array of two parts is rendering the first part and then the second from the state it left |
| Render.CombineAssoc | chopsgen.js:284-299 | joining rendered outputs is associative |
| Render.NavLinkIsTag | chopsgen.js:533-541 | a link that is not redundant renders as the `<a href>` tag around the array of its content |
| Render.LinkUnredundant | chopsgen.js:533-541 | a link that is not redundant is the `<a href>` opening tag, the content with missing lists read as empty, and the closing tag |
| Render.NameNavLinkIsNavLink | chopsgen.js:515-522 | a NameNavLink renders as a NavLink to the page showing the page's name |
| Render.NameNavLinkUnknown | chopsgen.js:506-522 | a NameNavLink to an unregistered page fails UnknownPage |
| Render.NameNavLinkOnOwnPage | chopsgen.js:515-522 | a NameNavLink on its own page renders as the plain page name |
| Render.NiceTokensFresh | chopsgen.js:684-686 | a NiceWidget's token differs from the token the next NiceWidget will get |
| Render.NiceSeesOwnToken | chopsgen.js:644-653 | a manual HTML generator holding only a token renders that NiceWidget's own token |
| Render.HelloWorld | chopsgen.js:458-476 | an array of a string and a tag around an array of a string renders, when neither string needs escaping, as the first string, the opening tag, the inner string and the closing tag, with empty `js` and `css` lists |
| Dependencies.IncludeOnceJs | chopsgen.js:574-583 | the same url always gives the same bundle, holding one external dependency on that url; a new url gets a fresh bundle; earlier bundles are untouched |
| Dependencies.IncludeOnceJsInjective | chopsgen.js:574-583 | different urls get different bundles |
| Dependencies.FindCloser | chopsgen.js:982-986 | the scan finds a `<`, spaces, then `/` or `!` exactly when one occurs |
| Dependencies.CheckEmbedded | chopsgen.js:982-986 | embedded code is accepted exactly when it holds no such closer |
| Dependencies.SafeCodeHasNoCloser | chopsgen.js:982-986 | accepted code never contains `</` or `<!` |
| Dependencies.UrlFrom | chopsgen.js:977-978 | from a plain location, a dependency url renders exactly when it parses as an absolute path; from a masked location with a valid base path, exactly when it parses as an absolute path and that base path is a directory |
| Dependencies.RenderCss | chopsgen.js:972-994 | an external stylesheet renders exactly when its url does, as a `<link rel="stylesheet">` with the media part and the attribute-escaped link; embedded CSS renders exactly when it is safe, as a `<style>` element around the code; a conditional comment renders exactly when its content does, as that content inside `<!--[if …]>` … `<![endif]-->`; an include-once bundle is an invalid CSS dependency; an `undefined` fails |
| Dependencies.RenderJs | chopsgen.js:996-1017 | as for CSS, for script dependencies: an external script is a `<script src>` element with the attribute-escaped link, embedded code a `<script>` element around the code |
| Dependencies.RenderCssAll | chopsgen.js:1067-1069 | the CSS list renders exactly when each entry does |
| Dependencies.RenderCssAllSingle | chopsgen.js:1067-1069 | a one-entry CSS list renders as that entry |
| Dependencies.RenderCssAllAppend | chopsgen.js:1067-1069 | rendering two CSS lists is their texts joined in order, or the first failure |
| Dependencies.RenderJsAll | chopsgen.js:1019-1037 | the JS list renders exactly when each entry does |
| Dependencies.RenderJsAllSingle | chopsgen.js:1030-1032 | a one-entry JS list renders as that entry |
| Dependencies.RenderJsAllAppend | chopsgen.js:1019-1037 | rendering two JS lists is their texts joined in order, or the first failure |
| Dependencies.RenderEachAppend | chopsgen.js:1019-1037 | for any per-entry rendering, a concatenated list renders as the two parts joined in order, or the first failure |
| Dependencies.NoCloserInCode | chopsgen.js:982-986 | code that passes the check holds no `</` |
| Dependencies.CloserOnlyAtClose | chopsgen.js:987-988 | code that passes the check, inside tags that hold no other `<`, leaves `</` only where the closing tag starts |
| Dependencies.EmbeddedCssStaysInside | chopsgen.js:980-988 | in the `<style>` element of accepted CSS, `</` starts only at the element's own `</style>` |
| Dependencies.EmbeddedJsStaysInside | chopsgen.js:1003-1011 | in the `<script>` element of accepted JavaScript, `</` starts only at the element's own `</script>` |
| Dependencies.Expand | chopsgen.js:1019-1037 | expansion leaves no bundles, marks every bundle it meets, and only ever adds bundles from the table |
| Dependencies.RenderJsDependencies | chopsgen.js:1019-1037 | the list renders as the include-once expansion rendered in order; a list without bundles renders as each dependency in order |
| Dependencies.RepeatedBundleRendersOnce | chopsgen.js:1023-1029 | naming a bundle again at the end of a list that already names it adds no script |
| Dependencies.ExpandPlain | chopsgen.js:1019-1037 | expanding a list without bundles keeps it as is |
| Dependencies.ExpandAppend | chopsgen.js:1019-1037 | expanding two lists is expanding the first and then the second with the bundles the first included |
| Dependencies.IncludedSkipped | chopsgen.js:1023-1029 | a bundle already included contributes nothing |
| Dependencies.ExpandedOnce | chopsgen.js:1023-1029 | a bundle named twice expands once |
| Dependencies.SelfNestedBundle | chopsgen.js:1023-1029 | a bundle that lists itself expands to its other dependency, once |
| Paragraphs.Flatten | chopsgen.js:798-808 | the flattening holds no arrays |
| Paragraphs.FlattenNested | chopsgen.js:798-808 | an array nested in a list flattens to the flattening of its items |
| Paragraphs.FlattenIdempotent | chopsgen.js:798-808 | flattening twice is flattening once |
| Paragraphs.FlattenKeepsLeaves | chopsgen.js:798-808 | every non-array element of the list is in its flattening |
| Paragraphs.FlattenAppend | chopsgen.js:798-808 | flattening distributes over concatenation |
| Paragraphs.FlattenFlat | chopsgen.js:798-808 | a list without arrays is its own flattening |
| Paragraphs.Bank | chopsgen.js:816-828 | a buffer becomes one paragraph of its trimmed contents exactly when it is non-empty and something survives the trim |
| Paragraphs.Group | chopsgen.js:815-838 | the grouper's loop computes the reference grouping of the flattened input, and its output is all BlockWidgets |
| Paragraphs.GroupAllBlocks | chopsgen.js:815-838 | every element of the grouping is a BlockWidget |
| Paragraphs.GroupRun | chopsgen.js:815-838 | a run with no BlockWidget becomes at most one paragraph |
| Paragraphs.GroupSplit | chopsgen.js:829-836 | an input BlockWidget passes through unchanged between the paragraph before it and the grouping after it |
| Paragraphs.TwoStringsOneParagraph | chopsgen.js:815-838 | two adjacent strings share one paragraph |
| Pages.DefinePage | chopsgen.js:1049-1051 | the page is registered under its permalink's absolute spelling and no other key changes |
| Pages.DefinePageLaterWins | chopsgen.js:1049-1051 | a later page with the same permalink replaces the earlier one |
| Pages.DefinePageCommutes | chopsgen.js:1049-1051 | pages with different printable permalinks can be defined in either order |
| Pages.Shell | chopsgen.js:1058-1075 | the document starts with the doctype and ends with the body and the closing tags |
| Pages.PhpEscapeRoundTrip | chopsgen.js:1079 | removing each inserted `<?php?>` from the escaped document, left to right, gives back the document |
| Pages.PhpEscapeOnlyEmptyBlocks | chopsgen.js:1079 | every `<?` of the escaped document opens an empty PHP block |
| Pages.RenderHtml | chopsgen.js:1053-1076 | a document exists exactly when the body, the title, the bundle lookup, the JS, the CSS and the icon link all render; it is the fixed shell around the escaped plain title, the JS of the body's list with its bundles expanded (`[]` when missing), the CSS of its list, the icon link and the body HTML |
| Pages.ShellLayout | chopsgen.js:1058-1075 | the document is the doctype, the head's opening part, the JS text followed at once by the CSS text, the head's closing part, and then the body part, which starts with `<body>` |
| Pages.HeadBounds | chopsgen.js:1059-1074 | the head's opening part starts with `<html lang="en"><head>` and ends with the title element; its closing part starts with the icon link and ends with `</head>` |
| Pages.UndefinedJsFails | chopsgen.js:1053-1070 | a page whose body is a NiceWidget with a string as `widgetHtml` does not render; with a valid title and bundle table it fails on the `undefined` JS dependency |
| Pages.RenderPage | chopsgen.js:1053-1082 | a page is written as PHP exactly when it is a 404 page and PHP is allowed; PHP output starts with the 404 header and prints the HTML document; HTML output is the document |
| Pages.PageLoc | chopsgen.js:1088-1091 | a page is rendered at its permalink, or, when it uses absolute links, at the mask of the parsed permalink under the base path; it fails exactly when the key does not parse, or parses to nothing for a page with relative links |
| Pages.Collect | chopsgen.js:1087-1092 | the per-page results combine exactly when each succeeded, under the same keys |
| Pages.RenderPages | chopsgen.js:1084-1093 | every registered page is rendered under its own key; any failing page fails the call |
| Pages.OutputName | chopsgen.js:1098-1102 | a page is written to its permalink followed by `index.html` or `index.php` |
| Pages.OutputNameOfDirectory | chopsgen.js:1098-1102 | a directory permalink always gets an output name |
| Pages.OutputNameOfFile | chopsgen.js:401-404 | a permalink with a file part fails NotADirectory |
| Pages.OutputNamesDistinct | chopsgen.js:1095-1106 | different pages never write to the same file |
| Pages.NameFiles | chopsgen.js:1095-1106 | each page's text lands under its output name, and every file comes from some page |
| Pages.RenderPagesToText | chopsgen.js:1095-1106 | the site's files are the rendered pages under their output names; nothing else is written |

## Left out

- The parser of the manual-widget language (`my.parseManual`), the chops
  environment and `quoteLevel`. A manual generator holds its already
  parsed widget.
- The rulebook machinery of the helper library. A widget with no rule fails
  with `Unsupported`.
- The whitespace trims of the paragraph grouper are the parser library's
  `letChopLtrimRegex` and `letChopRtrimRegex`. They are parameters of
  `Paragraphs.Group`.
- The keyword-argument parsing of `my.widget` (the `NiceWidget`
  constructor). A NiceWidget is given directly as its three lists of
  generators, and an unknown keyword is not representable.
- `my.makePage` runs `toPath` on the permalink. A page holds its permalink
  as a parsed `Path`, and `basePath` is given as a `Path`. The page icon is
  kept as a location (`Loc`).
- Object identity of `JsIncludeOnce` bundles becomes an explicit number.
  The bundles live in a table that is passed to rendering. A number missing
  from the table fails with `UnknownBundle`. That cannot happen for bundles
  made by `Dependencies.IncludeOnceJs`.
- Render.Html: page names that link to each other make the source recurse
  without end, until its stack overflows. The model bounds NameNavLink
  nesting by a fuel of one more than the number of pages, and fails with
  `NameCycle` when the fuel runs out.
- Pages.RenderPages: the source throws from the first failing page in
  object-key order. The model reports any failure as `PageRenderFailed`.
- Render.HtmlNice: the counter is an unbounded natural number. In the
  source it is a JavaScript number, which stops counting exactly past 2^53
  NiceWidgets on one page, as the comment at chopsgen.js:681-683 says.
- The `Tag` variant of a widget can be built directly, without the checks
  of `Widgets.MakeTag` that the `HtmlTag` constructor makes. The rendering
  lemmas hold for every tag, checked or not. Such a tag's body need not be
  an array, while `my.tag(name)(args)` always wraps its arguments in one
  (chopsgen.js:479-483); for a body that is not an array the js/css lists
  can then be missing where the source's would be `[]`.
- Render.ManualText: the source's two WidgetToken errors (state of the
  wrong type, empty stack) become the single `TokenStackEmpty`. The state
  of the model always has a token stack.
- The `allowPhp` option is a boolean parameter. The default-option handling
  of `renderPages` is left out.
- The module bootstrap, the exported convenience constants (dashes,
  copyright) and the remaining widget environments of chopsgen.js are not
  part of this model.
