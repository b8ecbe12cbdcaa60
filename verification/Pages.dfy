/** Page registration and page assembly: `definePage`, `renderPage`,
    `renderPages` and `renderPagesToText` (chopsgen.js:1039-1106). */
module Pages {
  import opened Wrappers
  import opened Strings
  import opened Escape
  import opened Paths
  import opened Widgets
  import opened Render
  import opened Dependencies

  /** `my.definePage`: the registry is keyed by the permalink's absolute form. */
  function DefinePage(pages: map<string, Page>, page: Page): (r: map<string, Page>)
    ensures Abs(page.permalink) in r && r[Abs(page.permalink)] == page
    ensures r.Keys == pages.Keys + {Abs(page.permalink)}
    ensures forall k :: k in pages && k != Abs(page.permalink) ==> r[k] == pages[k]
  {
    pages[Abs(page.permalink) := page]
  }

  /** Registering two pages with the same permalink keeps the later one. */
  lemma DefinePageLaterWins(pages: map<string, Page>, first: Page, second: Page)
    requires first.permalink == second.permalink
    ensures DefinePage(DefinePage(pages, first), second) == DefinePage(pages, second)
  {
  }

  /** Pages with different permalinks do not disturb each other. */
  lemma DefinePageCommutes(pages: map<string, Page>, a: Page, b: Page)
    requires Printable(a.permalink) && Printable(b.permalink) && a.permalink != b.permalink
    ensures DefinePage(DefinePage(pages, a), b) == DefinePage(DefinePage(pages, b), a)
  {
    if Abs(a.permalink) == Abs(b.permalink) {
      AbsInjective(a.permalink, b.permalink);
    }
    assert Abs(a.permalink) != Abs(b.permalink);
  }

  // ---- the document shell ----------------------------------------------------

  datatype Kind = HtmlKind | PhpKind

  /** A rendered page: `{ type, text }`. */
  datatype Output = Output(kind: Kind, text: string)

  const Doctype: string := "<!DOCTYPE html>\n"
  const PhpHeader: string := "<?php header( \"HTTP/1.1 404 Not Found\" ); ?>\n"

  lemma Framed(a: string, m: string, b: string)
    ensures StartsWith(a + m + b, a) && EndsWith(a + m + b, b)
  {
    assert (a + m + b)[..|a|] == a;
    assert (a + m + b)[|a + m + b| - |b|..] == b;
  }

  /** The closing part of the document, from the body on. */
  function Tail(body: string): string
  {
    "<body>" + body + "</body></html>"
  }

  const HeadStart: string := "<html lang=\"en\"><head>"
  const Meta: string := "<meta http-equiv=\"Content-Type\" content=\"text/html;charset=UTF-8\" />"
  const IconStart: string := "<link rel=\"shortcut icon\" href=\""

  /** The title element. */
  function TitleElement(title: string): string
  {
    "<title>" + title + "</title>"
  }

  /** The opening of the head, up to and including the title. */
  function HeadOpening(title: string): string
  {
    HeadStart + Meta + TitleElement(title)
  }

  /** The end of the head: the icon link and the closing tag. */
  function HeadClosing(icon: string): string
  {
    IconStart + (AttrEscape(icon) + "\" />") + "</head>"
  }

  /** The document between the doctype and the body. */
  function Head(title: string, js: string, css: string, icon: string): string
  {
    HeadOpening(title) + js + css + HeadClosing(icon)
  }

  /** The fixed document around the rendered parts. */
  function Shell(title: string, js: string, css: string, icon: string, body: string): (html: string)
    ensures StartsWith(html, Doctype)
    ensures EndsWith(html, Tail(body))
  {
    Framed(Doctype, Head(title, js, css, icon), Tail(body));
    Doctype + Head(title, js, css, icon) + Tail(body)
  }

  lemma Regroup(a: string, o: string, j: string, c: string, k: string, t: string)
    ensures a + (o + j + c + k) + t == a + o + (j + c) + k + t
  {
  }

  /** The JS text and then the CSS text sit inside `<head>`, right after the
      title and before the icon link; the body comes after the head. */
  lemma ShellLayout(title: string, js: string, css: string, icon: string, body: string)
    ensures Shell(title, js, css, icon, body) ==
      Doctype + HeadOpening(title) + (js + css) + HeadClosing(icon) + Tail(body)
    ensures StartsWith(Tail(body), "<body>")
  {
    Regroup(Doctype, HeadOpening(title), js, css, HeadClosing(icon), Tail(body));
    Framed("<body>", body, "</body></html>");
  }

  /** The head opens with `<html lang="en"><head>` and ends the opening
      part with the title element; its closing part is the icon link and
      `</head>`. */
  lemma HeadBounds(title: string, icon: string)
    ensures StartsWith(HeadOpening(title), HeadStart) && EndsWith(HeadOpening(title), TitleElement(title))
    ensures StartsWith(HeadClosing(icon), IconStart) && EndsWith(HeadClosing(icon), "</head>")
  {
    Framed(HeadStart, Meta, TitleElement(title));
    Framed(IconStart, AttrEscape(icon) + "\" />", "</head>");
  }

  // ---- PHP-safe 404 pages ----------------------------------------------------

  /** The empty PHP block the escape inserts. */
  const EmptyBlock: string := "<?php?>"

  /** `html.replace( /<\?/g, "<<?php?>?" )`: every `<?`, scanning left to
      right without overlap, becomes `<`, an empty PHP block and `?`. */
  function PhpEscape(s: string): (r: string)
    ensures |s| > 0 ==> |r| > 0 && r[0] == s[0]
    decreases |s|
  {
    if |s| < 2 then s
    else if s[0] == '<' && s[1] == '?' then "<" + EmptyBlock + "?" + PhpEscape(s[2..])
    else [s[0]] + PhpEscape(s[1..])
  }

  /** Reference definition: the text with each `<?php?>` removed, scanning
      left to right. */
  function PhpPrints(t: string): string
    decreases |t|
  {
    if |t| == 0 then ""
    else if StartsWith(t, EmptyBlock) then PhpPrints(t[|EmptyBlock|..])
    else [t[0]] + PhpPrints(t[1..])
  }

  /** Text that does not begin with `<?` does not begin with a PHP block. */
  lemma NotBlockStart(t: string)
    requires |t| >= 1 && (t[0] != '<' || |t| < 2 || t[1] != '?')
    ensures !StartsWith(t, EmptyBlock)
  {
    if |t| >= |EmptyBlock| {
      assert t[..|EmptyBlock|][0] == t[0] && t[..|EmptyBlock|][1] == t[1];
    }
  }

  /** A character that does not start a PHP block is printed as it is. */
  lemma PhpPrintsCons(c: char, rest: string)
    requires c != '<' || |rest| == 0 || rest[0] != '?'
    ensures PhpPrints([c] + rest) == [c] + PhpPrints(rest)
  {
    var t := [c] + rest;
    assert t[0] == c && t[1..] == rest;
    NotBlockStart(t);
  }

  /** An empty PHP block prints nothing. */
  lemma PhpPrintsBlock(rest: string)
    ensures PhpPrints(EmptyBlock + rest) == PhpPrints(rest)
  {
    var t := EmptyBlock + rest;
    assert t[..|EmptyBlock|] == EmptyBlock;
    assert t[|EmptyBlock|..] == rest;
  }

  /** An escaped `<?` prints as `<?`. */
  lemma PhpPrintsEscaped(rest: string)
    ensures PhpPrints("<" + EmptyBlock + "?" + rest) == "<?" + PhpPrints(rest)
  {
    var q := ['?'] + rest;
    var tail := EmptyBlock + q;
    var pr := PhpPrints(rest);
    assert "<" + EmptyBlock + "?" + rest == ['<'] + tail;
    assert PhpPrints(['<'] + tail) == ['<'] + PhpPrints(tail) by {
      assert tail[0] == '<';
      PhpPrintsCons('<', tail);
    }
    assert PhpPrints(tail) == PhpPrints(q) by {
      PhpPrintsBlock(q);
    }
    assert PhpPrints(q) == ['?'] + pr by {
      PhpPrintsCons('?', rest);
    }
    assert ['<'] + (['?'] + pr) == "<?" + pr;
  }

  /** PHP prints exactly the page the escape was applied to. */
  lemma {:induction false} PhpEscapeRoundTrip(s: string)
    ensures PhpPrints(PhpEscape(s)) == s
    decreases |s|
  {
    if |s| == 1 {
      PhpPrintsCons(s[0], []);
      assert [s[0]] + [] == s;
    } else if |s| >= 2 && s[0] == '<' && s[1] == '?' {
      PhpEscapeRoundTrip(s[2..]);
      PhpPrintsEscaped(PhpEscape(s[2..]));
      assert s == "<?" + s[2..];
    } else if |s| >= 2 {
      var rest := PhpEscape(s[1..]);
      PhpEscapeRoundTrip(s[1..]);
      PhpPrintsCons(s[0], rest);
      assert s == [s[0]] + s[1..];
    }
  }

  /** Every `<?` of the escaped text opens an empty `<?php?>` block, so
      the only code PHP runs in a 404 page is its header. */
  predicate OnlyEmptyBlocks(t: string)
  {
    forall i :: 0 <= i < |t| - 1 && t[i] == '<' && t[i + 1] == '?' ==> StartsWith(t[i..], EmptyBlock)
  }

  lemma {:induction false} PhpEscapeOnlyEmptyBlocks(s: string)
    ensures OnlyEmptyBlocks(PhpEscape(s))
    decreases |s|
  {
    if |s| >= 2 {
      if s[0] == '<' && s[1] == '?' {
        var rest := PhpEscape(s[2..]);
        PhpEscapeOnlyEmptyBlocks(s[2..]);
        var t := "<" + EmptyBlock + "?" + rest;
        forall i | 0 <= i < |t| - 1 && t[i] == '<' && t[i + 1] == '?'
          ensures StartsWith(t[i..], EmptyBlock)
        {
          if i < 9 {
            assert i == 1;
          } else {
            assert t[i..] == rest[i - 9..];
            assert rest[i - 9] == '<' && rest[i - 8] == '?';
          }
        }
      } else {
        var rest := PhpEscape(s[1..]);
        PhpEscapeOnlyEmptyBlocks(s[1..]);
        var t := [s[0]] + rest;
        assert t[0] == s[0] && t[1] == rest[0] == s[1];
        forall i | 0 <= i < |t| - 1 && t[i] == '<' && t[i + 1] == '?'
          ensures StartsWith(t[i..], EmptyBlock)
        {
          if i > 0 {
            assert t[i..] == rest[i - 1..];
            assert rest[i - 1] == '<' && rest[i] == '?';
          }
        }
      }
    }
  }

  // ---- renderPage ------------------------------------------------------------

  /** How many NameNavLinks deep a page may go before names are taken to
      refer to each other without end: more than the registry has pages. */
  function Fuel(pages: map<string, Page>): nat
  {
    |pages| + 1
  }

  /** The HTML document of `renderPage`, before the 404/PHP decision. */
  function RenderHtml(pages: map<string, Page>, bundles: map<nat, seq<Dep>>, page: Page, at: Loc): (r: Result<string>)
    ensures r.Ok? ==> StartsWith(r.value, Doctype)
    ensures r.Ok? <==>
      var b := Html(page.body, at, InitialState(pages), Fuel(pages));
      b.Ok? && Title(page.title).Ok? && Closed(bundles, OrEmpty(b.value.js)) &&
      RenderJsDependencies(bundles, OrEmpty(b.value.js), at).Ok? &&
      RenderCssAll(OrEmpty(b.value.css), at).Ok? &&
      LocFrom(page.icon, at).Ok?
    ensures r.Ok? ==>
      var b := Html(page.body, at, InitialState(pages), Fuel(pages)).value;
      r.value == Shell(HtmlEscape(PlainText(page.title)),
                       RenderJsDependencies(bundles, OrEmpty(b.js), at).value,
                       RenderCssAll(OrEmpty(b.css), at).value,
                       LocFrom(page.icon, at).value,
                       b.html)
  {
    var body :- Html(page.body, at, InitialState(pages), Fuel(pages));
    var title :- Title(page.title);
    if !Closed(bundles, OrEmpty(body.js)) then Err(UnknownBundle)
    else
      var js :- RenderJsDependencies(bundles, OrEmpty(body.js), at);
      var css :- RenderCssAll(OrEmpty(body.css), at);
      var icon :- LocFrom(page.icon, at);
      Ok(Shell(title, js, css, icon, body.html))
  }

  /** A page whose body is a NiceWidget with `widgetHtml` of a string does
      not render: its JS list holds an `undefined`, and reading the `type`
      of `undefined` throws. */
  lemma UndefinedJsFails(pages: map<string, Page>, bundles: map<nat, seq<Dep>>, page: Page, s: string, at: Loc)
    requires page.body == Nice([], [], [WidgetHtml(Text(s))])
    ensures RenderHtml(pages, bundles, page, at).Err?
    ensures Title(page.title).Ok? && Closed(bundles, []) ==>
      RenderHtml(pages, bundles, page, at) == Err(UndefinedDependency)
  {
    var st := InitialState(pages);
    WidgetHtmlOfString(s, at, st, Fuel(pages));
    var js := [Undefined];
    assert NoBundles(js);
    assert RenderJs(js[0], at).Err?;
    if Closed(bundles, []) {
      assert Closed(bundles, js);
      assert RenderJsDependencies(bundles, js, at) == RenderJsAll(js, at);
      assert RenderJsAll(js, at) == Err(UndefinedDependency) by {
        assert js[1..] == [];
      }
    }
  }

  /** `renderPage`: a 404 page under `allowPhp` becomes a PHP file that
      sends the 404 status and prints the same document. */
  function RenderPage(pages: map<string, Page>, bundles: map<nat, seq<Dep>>, page: Page, at: Loc, allowPhp: bool): (r: Result<Output>)
    ensures r.Ok? <==> RenderHtml(pages, bundles, page, at).Ok?
    ensures r.Ok? ==> (r.value.kind == PhpKind <==> page.is404 && allowPhp)
    ensures r.Ok? && r.value.kind == HtmlKind ==> r.value.text == RenderHtml(pages, bundles, page, at).value
    ensures r.Ok? && r.value.kind == PhpKind ==>
      StartsWith(r.value.text, PhpHeader) &&
      OnlyEmptyBlocks(r.value.text[|PhpHeader|..]) &&
      PhpPrints(r.value.text[|PhpHeader|..]) == RenderHtml(pages, bundles, page, at).value
  {
    var html :- RenderHtml(pages, bundles, page, at);
    if !page.is404 || !allowPhp then Ok(Output(HtmlKind, html))
    else
      var text := PhpHeader + PhpEscape(html);
      PhpEscapeRoundTrip(html);
      PhpEscapeOnlyEmptyBlocks(html);
      assert text[..|PhpHeader|] == PhpHeader && text[|PhpHeader|..] == PhpEscape(html);
      Ok(Output(PhpKind, text))
  }

  /** Where a page is rendered: its permalink, or, for a page that uses
      absolute links, `my.maskPath( permalink, basePath )`. */
  function PageLoc(key: string, page: Page, base: Path): (r: Result<Loc>)
    ensures r.Ok? && !page.usesAbsolute ==> r.value.Plain? && Abs(r.value.path) == key
    ensures r.Ok? && page.usesAbsolute ==> r.value.Masked? && r.value.basePath == base
    ensures r.Ok? <==> ToPath(key, None).Ok? && (page.usesAbsolute || ToPath(key, None).value.Some?)
    ensures r.Ok? && page.usesAbsolute ==> r.value.realPath == ToPath(key, None).value
  {
    var parsed :- ToPath(key, None);
    if page.usesAbsolute then Ok(Masked(parsed, base))
    else if parsed.None? then Err(UnparseablePath)
    else Ok(Plain(parsed.value))
  }

  /** Every page renders at its own location. */
  predicate AllRender(pages: map<string, Page>, bundles: map<nat, seq<Dep>>, base: Path, allowPhp: bool)
  {
    forall k :: k in pages ==> RenderAt(pages, bundles, k, base, allowPhp).Ok?
  }

  function RenderAt(pages: map<string, Page>, bundles: map<nat, seq<Dep>>, key: string, base: Path, allowPhp: bool): (r: Result<Output>)
    requires key in pages
  {
    var at :- PageLoc(key, pages[key], base);
    RenderPage(pages, bundles, pages[key], at, allowPhp)
  }

  /** `_.objMap` over per-page results: every result must be a value, and
      one failing page fails the whole call. */
  function Collect(results: map<string, Result<Output>>): (r: Result<map<string, Output>>)
    ensures r.Ok? <==> forall k :: k in results ==> results[k].Ok?
    ensures r.Ok? ==> r.value.Keys == results.Keys
    ensures r.Ok? ==> forall k :: k in results ==> r.value[k] == results[k].value
    ensures r.Err? ==> r.error == PageRenderFailed
  {
    if forall k :: k in results ==> results[k].Ok? then
      Ok(map k | k in results :: results[k].value)
    else Err(PageRenderFailed)
  }

  /** `my.renderPages`: every page of the registry, keyed as in the
      registry; one failing page fails the whole call. */
  function RenderPages(pages: map<string, Page>, bundles: map<nat, seq<Dep>>, base: Path, allowPhp: bool): (r: Result<map<string, Output>>)
    ensures r.Ok? <==> AllRender(pages, bundles, base, allowPhp)
    ensures r.Ok? ==> r.value.Keys == pages.Keys
    ensures r.Ok? ==> forall k :: k in pages ==> r.value[k] == RenderAt(pages, bundles, k, base, allowPhp).value
    ensures r.Err? ==> r.error == PageRenderFailed
  {
    var results := map k | k in pages :: RenderAt(pages, bundles, k, base, allowPhp);
    assert results.Keys == pages.Keys;
    assert AllRender(pages, bundles, base, allowPhp) <==> forall k :: k in results ==> results[k].Ok?;
    Collect(results)
  }

  // ---- renderPagesToText -----------------------------------------------------

  /** The path `my.toPath( "/index.html" )` or `my.toPath( "/index.php" )`. */
  function IndexFile(kind: Kind): Path
  {
    Path([], if kind == HtmlKind then "index.html" else "index.php")
  }

  /** The file name a rendered page is written to:
      `my.toPath( permalink ).plus( "/index.html" ).abs()`. */
  function OutputName(key: string, kind: Kind): (r: Result<string>)
    ensures r.Ok? ==> r.value == key + IndexFile(kind).file
  {
    var parsed :- ToPath(key, None);
    if parsed.None? then Err(UnparseablePath)
    else
      var full :- Plus(parsed.value, Plain(IndexFile(kind)));
      assert parsed.value.dirs + [] == parsed.value.dirs;
      Ok(Abs(full))
  }

  lemma {:induction false} SegCharsFilePart(f: string)
    requires forall i :: 0 <= i < |f| ==> SegChar(f[i])
    ensures FilePart(f)
    decreases |f|
  {
    if |f| > 0 {
      SegCharsFilePart(f[1..]);
    }
  }

  /** The index file names parse back from their absolute strings. */
  lemma IndexFileParses(kind: Kind)
    ensures ToPath(Abs(IndexFile(kind)), None) == Ok(Some(IndexFile(kind)))
  {
    var f := IndexFile(kind).file;
    assert forall i :: 0 <= i < |f| ==> SegChar(f[i]);
    SegCharsFilePart(f);
    ToPathAbs(IndexFile(kind));
  }

  /** A directory permalink is written to its `index.html` or `index.php`. */
  lemma OutputNameOfDirectory(p: Path, kind: Kind)
    requires Printable(p) && p.file == ""
    ensures OutputName(Abs(p), kind) == Ok(Abs(p) + IndexFile(kind).file)
  {
    ToPathAbs(p);
    assert MakePath(p.dirs + [], IndexFile(kind).file).Ok?;
  }

  /** A permalink with a file part cannot take an index file. */
  lemma OutputNameOfFile(p: Path, kind: Kind)
    requires Printable(p) && p.file != ""
    ensures OutputName(Abs(p), kind) == Err(NotADirectory)
  {
    ToPathAbs(p);
  }

  /** Different pages never share an output file. */
  lemma OutputNamesDistinct(k1: string, k2: string, kind1: Kind, kind2: Kind)
    requires OutputName(k1, kind1).Ok? && OutputName(k2, kind2).Ok?
    requires k1 != k2 || kind1 != kind2
    ensures OutputName(k1, kind1).value != OutputName(k2, kind2).value
  {
    var n1, n2 := OutputName(k1, kind1).value, OutputName(k2, kind2).value;
    var f1, f2 := IndexFile(kind1).file, IndexFile(kind2).file;
    if kind1 == kind2 {
      assert n1[..|n1| - |f1|] == k1;
      assert n2[..|n2| - |f2|] == k2;
    } else {
      assert n1[|n1| - 1] == f1[|f1| - 1];
      assert n2[|n2| - 1] == f2[|f2| - 1];
    }
  }

  /** Every rendered page has an output file name. */
  predicate AllNamed(rendered: map<string, Output>)
  {
    forall k :: k in rendered ==> OutputName(k, rendered[k].kind).Ok?
  }

  lemma NamesInjective(rendered: map<string, Output>)
    requires AllNamed(rendered)
    ensures forall k1, k2 :: k1 in rendered && k2 in rendered && k1 != k2 ==>
      OutputName(k1, rendered[k1].kind).value != OutputName(k2, rendered[k2].kind).value
  {
    forall k1, k2 | k1 in rendered && k2 in rendered && k1 != k2
      ensures OutputName(k1, rendered[k1].kind).value != OutputName(k2, rendered[k2].kind).value
    {
      OutputNamesDistinct(k1, k2, rendered[k1].kind, rendered[k2].kind);
    }
  }

  /** `_.objMappend` of the rendered pages: each page contributes its output
      file name and its text. */
  function NameFiles(rendered: map<string, Output>): (r: Result<map<string, string>>)
    ensures r.Ok? <==> AllNamed(rendered)
    ensures r.Ok? ==> forall k :: k in rendered ==>
      k + IndexFile(rendered[k].kind).file in r.value && r.value[k + IndexFile(rendered[k].kind).file] == rendered[k].text
    ensures r.Ok? ==> forall n :: n in r.value ==> exists k :: k in rendered && n == k + IndexFile(rendered[k].kind).file
    ensures r.Err? ==> r.error == PageRenderFailed
  {
    if !AllNamed(rendered) then Err(PageRenderFailed)
    else
      NamesInjective(rendered);
      Ok(map k | k in rendered :: OutputName(k, rendered[k].kind).value := rendered[k].text)
  }

  /** `my.renderPagesToText`: file name to text, for every page. */
  function RenderPagesToText(pages: map<string, Page>, bundles: map<nat, seq<Dep>>, base: Path, allowPhp: bool): (r: Result<map<string, string>>)
    ensures r.Ok? <==> RenderPages(pages, bundles, base, allowPhp).Ok? && AllNamed(RenderPages(pages, bundles, base, allowPhp).value)
    ensures r.Ok? ==> forall k :: k in pages ==>
      var out := RenderAt(pages, bundles, k, base, allowPhp).value;
      k + IndexFile(out.kind).file in r.value && r.value[k + IndexFile(out.kind).file] == out.text
    ensures r.Ok? ==> forall n :: n in r.value ==> exists k :: k in pages && n == k + IndexFile(RenderAt(pages, bundles, k, base, allowPhp).value.kind).file
    ensures r.Err? ==> r.error == PageRenderFailed
  {
    var rendered :- RenderPages(pages, bundles, base, allowPhp);
    NameFiles(rendered)
  }
}
