/** CSS and JS dependency rendering (chopsgen.js:972-1037) and the
    include-once bundle registry (chopsgen.js:574-583).  A `JsIncludeOnce`
    object is identified by a number; the bundle table maps it to the
    dependency list the object holds. */
module Dependencies {
  import opened Wrappers
  import opened Strings
  import opened Escape
  import opened Paths
  import opened Widgets

  // ---- the includeOnceJs memo ----------------------------------------------

  /** `includeOnceJsObjects` together with the bundles it made: `byUrl`
      remembers the identity handed out for each url, `table` holds each
      identity's dependency list, `next` is the next fresh identity. */
  datatype Registry = Registry(byUrl: map<string, nat>, table: map<nat, seq<Dep>>, next: nat)

  predicate ValidRegistry(reg: Registry)
  {
    (forall u :: u in reg.byUrl ==> reg.byUrl[u] in reg.table && reg.table[reg.byUrl[u]] == [External(u, None)])
    && (forall id :: id in reg.table ==> id < reg.next)
  }

  function EmptyRegistry(): (reg: Registry)
    ensures ValidRegistry(reg)
  {
    Registry(map[], map[], 0)
  }

  /** `includeOnceJs( url )`: the bundle already made for `url`, or a new one
      holding the single external dependency on `url`. */
  function IncludeOnceJs(reg: Registry, url: string): (r: (Registry, nat))
    requires ValidRegistry(reg)
    ensures ValidRegistry(r.0)
    ensures url in r.0.byUrl && r.0.byUrl[url] == r.1
    ensures r.1 in r.0.table && r.0.table[r.1] == [External(url, None)]
    ensures url in reg.byUrl ==> r == (reg, reg.byUrl[url])
    ensures url !in reg.byUrl ==> r.1 !in reg.table
    ensures forall u :: u in reg.byUrl ==> u in r.0.byUrl && r.0.byUrl[u] == reg.byUrl[u]
    ensures forall id :: id in reg.table ==> id in r.0.table && r.0.table[id] == reg.table[id]
  {
    if url in reg.byUrl then (reg, reg.byUrl[url])
    else
      var id := reg.next;
      (Registry(reg.byUrl[url := id], reg.table[id := [External(url, None)]], id + 1), id)
  }

  /** Asking twice for the same url gives the same bundle and changes nothing
      the second time. */
  lemma IncludeOnceJsIdempotent(reg: Registry, url: string)
    requires ValidRegistry(reg)
    ensures var (reg1, id1) := IncludeOnceJs(reg, url);
            IncludeOnceJs(reg1, url) == (reg1, id1)
  {
  }

  /** Different urls get different bundles. */
  lemma IncludeOnceJsInjective(reg: Registry, u: string, v: string)
    requires ValidRegistry(reg) && u in reg.byUrl && v in reg.byUrl && u != v
    ensures reg.byUrl[u] != reg.byUrl[v]
  {
    assert reg.table[reg.byUrl[u]][0].url == u;
    assert reg.table[reg.byUrl[v]][0].url == v;
  }

  // ---- the embedded-code check ---------------------------------------------

  /** JavaScript's `\s`. */
  predicate JsSpace(c: char)
  {
    ('\U{0009}' <= c <= '\U{000D}') || c == ' ' || c == '\U{00A0}' || c == '\U{1680}'
    || ('\U{2000}' <= c <= '\U{200A}') || c == '\U{2028}' || c == '\U{2029}'
    || c == '\U{202F}' || c == '\U{205F}' || c == '\U{3000}' || c == '\U{FEFF}'
  }

  /** A match of `/<\s*[\/!]/` ending at `j`: a `<` at `i`, only spaces
      between, and a `/` or `!` at `j`. */
  predicate CloserAt(code: string, i: nat, j: nat)
  {
    i < j < |code| && code[i] == '<' && (code[j] == '/' || code[j] == '!')
    && forall k :: i < k < j ==> JsSpace(code[k])
  }

  /** Reference definition: `/<\s*[\/!]/.exec( code )` succeeds. */
  ghost predicate Unsafe(code: string)
  {
    exists i: nat, j: nat :: CloserAt(code, i, j)
  }

  /** The first index at or after `i` that is not a space. */
  function SkipSpaces(s: string, i: nat): (j: nat)
    requires i <= |s|
    ensures i <= j <= |s|
    ensures forall k :: i <= k < j ==> JsSpace(s[k])
    ensures j < |s| ==> !JsSpace(s[j])
    decreases |s| - i
  {
    if i == |s| || !JsSpace(s[i]) then i else SkipSpaces(s, i + 1)
  }

  /** Scans for a match of the pattern starting at or after `i`. */
  function FindCloser(s: string, i: nat): (b: bool)
    requires i <= |s|
    ensures b <==> exists a: nat, j: nat :: i <= a && CloserAt(s, a, j)
    decreases |s| - i
  {
    if i == |s| then false
    else
      var j := SkipSpaces(s, i + 1);
      var here := s[i] == '<' && j < |s| && (s[j] == '/' || s[j] == '!');
      CloserFrom(s, i);
      here || FindCloser(s, i + 1)
  }

  /** A match starts at `i` exactly when the scan from `i + 1` stops on a
      `/` or `!`. */
  lemma CloserFrom(s: string, i: nat)
    requires i < |s|
    ensures var j := SkipSpaces(s, i + 1);
            (s[i] == '<' && j < |s| && (s[j] == '/' || s[j] == '!')) <==> exists j': nat :: CloserAt(s, i, j')
  {
    var j := SkipSpaces(s, i + 1);
    if s[i] == '<' && j < |s| && (s[j] == '/' || s[j] == '!') {
      assert CloserAt(s, i, j);
    }
    forall j': nat | CloserAt(s, i, j')
      ensures j < |s| && (s[j] == '/' || s[j] == '!')
    {
      assert !JsSpace(s[j']);
      assert j == j';
    }
  }

  /** The embedded-code check, `Ok` when the code may be inlined. */
  function CheckEmbedded(code: string): (r: Result<()>)
    ensures r.Ok? <==> !Unsafe(code)
    ensures r.Err? ==> r.error == InvalidEmbeddedCode
  {
    if FindCloser(code, 0) then Err(InvalidEmbeddedCode) else Ok(())
  }

  /** Code that passes the check holds no `</` (so it cannot close its
      `<script>` or `<style>` element early) and no `<!`. */
  lemma SafeCodeHasNoCloser(code: string, k: nat)
    requires !Unsafe(code) && k + 1 < |code|
    ensures code[k..k + 2] != "</" && code[k..k + 2] != "<!"
  {
    if code[k] == '<' && (code[k + 1] == '/' || code[k + 1] == '!') {
      assert CloserAt(code, k, k + 1);
    }
  }

  // ---- rendering single dependencies ---------------------------------------

  /** `my.toPath( dep.url ).from( path )`: only an absolute url parses
      without a base, and `null.from` fails. */
  function UrlFrom(url: string, at: Loc): (r: Result<string>)
    ensures at.Plain? ==> (r.Ok? <==> ToPath(url, None).Ok? && ToPath(url, None).value.Some?)
    ensures at.Masked? && ValidPath(at.basePath) ==>
      (r.Ok? <==> ToPath(url, None).Ok? && ToPath(url, None).value.Some? && at.basePath.file == "")
  {
    var parsed :- ToPath(url, None);
    if parsed.None? then Err(UnparseablePath) else From(parsed.value, at)
  }

  /** ` media="..."` when a media query is given. */
  function MediaPart(media: Option<string>): string
  {
    if media.None? then "" else " media=\"" + AttrEscape(media.value) + "\""
  }

  /** Wraps a rendered dependency in an Internet Explorer conditional comment. */
  function IeWrap(on: string, inner: string): string
  {
    "<!--[if " + on + "]>" + inner + "<![endif]-->"
  }

  /** `<link rel="stylesheet" … />` for a stylesheet at `href`. */
  function StylesheetLink(media: Option<string>, href: string): string
  {
    "<link rel=\"stylesheet\"" + MediaPart(media) + " href=\"" + AttrEscape(href) + "\" />"
  }

  /** An element around embedded code: `<`, the rest of the opening tag,
      the code, `</` and the rest of the closing tag. */
  function Element(open: string, code: string, close: string): string
  {
    "<" + open + code + "</" + close
  }

  /** `<style …>` around embedded CSS. */
  function StyleElement(media: Option<string>, code: string): string
  {
    Element(StyleOpen(media), code, "style>")
  }

  /** The inside of the `<style …>` opening tag. */
  function StyleOpen(media: Option<string>): string
  {
    "style" + MediaPart(media) + " type=\"text/css\">"
  }

  /** `<script … src="…">` for a script at `src`. */
  function ScriptLink(src: string): string
  {
    "<script type=\"text/javascript\" src=\"" + AttrEscape(src) + "\"></script>"
  }

  /** `<script …>` around embedded JavaScript. */
  function ScriptElement(code: string): string
  {
    Element("script type=\"text/javascript\">", code, "script>")
  }

  /** `renderCssDependency`. */
  function RenderCss(dep: Dep, at: Loc): (r: Result<string>)
    ensures dep.External? ==> (r.Ok? <==> UrlFrom(dep.url, at).Ok?)
    ensures dep.External? && r.Ok? ==> r.value == StylesheetLink(dep.media, UrlFrom(dep.url, at).value)
    ensures dep.Embedded? ==> (r.Ok? <==> !Unsafe(dep.code))
    ensures dep.Embedded? && r.Ok? ==> r.value == StyleElement(dep.media, dep.code)
    ensures dep.IncludeOnce? ==> r == Err(InvalidDependency)
    ensures dep.Undefined? ==> r == Err(UndefinedDependency)
    ensures dep.Ie? ==> (r.Ok? <==> RenderCss(dep.use, at).Ok?)
    ensures dep.Ie? && r.Ok? ==> r.value == IeWrap(dep.on, RenderCss(dep.use, at).value)
  {
    match dep
    case External(url, media) =>
      var href :- UrlFrom(url, at);
      Ok(StylesheetLink(media, href))
    case Embedded(code, media) =>
      var _ :- CheckEmbedded(code);
      Ok(StyleElement(media, code))
    case Ie(on, use) =>
      var inner :- RenderCss(use, at);
      Ok(IeWrap(on, inner))
    case IncludeOnce(_) => Err(InvalidDependency)
    case Undefined => Err(UndefinedDependency)
  }

  /** `renderJsDependency`; a JS dependency has no media. */
  function RenderJs(dep: Dep, at: Loc): (r: Result<string>)
    ensures dep.External? ==> (r.Ok? <==> UrlFrom(dep.url, at).Ok?)
    ensures dep.External? && r.Ok? ==> r.value == ScriptLink(UrlFrom(dep.url, at).value)
    ensures dep.Embedded? ==> (r.Ok? <==> !Unsafe(dep.code))
    ensures dep.Embedded? && r.Ok? ==> r.value == ScriptElement(dep.code)
    ensures dep.IncludeOnce? ==> r == Err(InvalidDependency)
    ensures dep.Undefined? ==> r == Err(UndefinedDependency)
    ensures dep.Ie? ==> (r.Ok? <==> RenderJs(dep.use, at).Ok?)
    ensures dep.Ie? && r.Ok? ==> r.value == IeWrap(dep.on, RenderJs(dep.use, at).value)
  {
    match dep
    case External(url, _) =>
      var src :- UrlFrom(url, at);
      Ok(ScriptLink(src))
    case Embedded(code, _) =>
      var _ :- CheckEmbedded(code);
      Ok(ScriptElement(code))
    case Ie(on, use) =>
      var inner :- RenderJs(use, at);
      Ok(IeWrap(on, inner))
    case IncludeOnce(_) => Err(InvalidDependency)
    case Undefined => Err(UndefinedDependency)
  }

  // ---- rendering lists ---------------------------------------------------

  /** Each dependency rendered by `render` in order and joined; the first
      throw ends the list. */
  function RenderEach(render: Dep -> Result<string>, deps: seq<Dep>): (r: Result<string>)
    ensures r.Ok? <==> forall i :: 0 <= i < |deps| ==> render(deps[i]).Ok?
  {
    if |deps| == 0 then Ok("")
    else
      var a :- render(deps[0]);
      var b :- RenderEach(render, deps[1..]);
      assert forall i :: 1 <= i < |deps| ==> deps[i] == deps[1..][i - 1];
      Ok(a + b)
  }

  /** A one-entry list renders as its entry. */
  lemma RenderEachSingle(render: Dep -> Result<string>, d: Dep)
    ensures RenderEach(render, [d]) == render(d)
  {
    assert [d][1..] == [];
    if render(d).Ok? {
      assert render(d).value + "" == render(d).value;
    }
  }

  /** Rendering two lists one after the other is rendering their
      concatenation, and the first failure is the concatenation's failure. */
  lemma {:induction false} RenderEachAppend(render: Dep -> Result<string>, a: seq<Dep>, b: seq<Dep>)
    ensures RenderEach(render, a + b) == Joined(RenderEach(render, a), RenderEach(render, b))
    decreases |a|
  {
    if |a| == 0 {
      assert a + b == b;
      if RenderEach(render, b).Ok? {
        assert "" + RenderEach(render, b).value == RenderEach(render, b).value;
      }
    } else {
      var ab := a + b;
      assert ab[0] == a[0] && ab[1..] == a[1..] + b;
      RenderEachAppend(render, a[1..], b);
      var h, ra, rb := render(a[0]), RenderEach(render, a[1..]), RenderEach(render, b);
      if h.Ok? && ra.Ok? && rb.Ok? {
        assert h.value + (ra.value + rb.value) == (h.value + ra.value) + rb.value;
      }
    }
  }

  function CssAt(at: Loc): Dep -> Result<string>
  {
    d => RenderCss(d, at)
  }

  function JsAt(at: Loc): Dep -> Result<string>
  {
    d => RenderJs(d, at)
  }

  /** Each CSS dependency rendered in order and joined: CSS is not deduplicated. */
  function RenderCssAll(deps: seq<Dep>, at: Loc): (r: Result<string>)
    ensures r.Ok? <==> forall i :: 0 <= i < |deps| ==> RenderCss(deps[i], at).Ok?
  {
    RenderEach(CssAt(at), deps)
  }

  /** Each JS dependency rendered in order and joined. */
  function RenderJsAll(deps: seq<Dep>, at: Loc): (r: Result<string>)
    ensures r.Ok? <==> forall i :: 0 <= i < |deps| ==> RenderJs(deps[i], at).Ok?
  {
    RenderEach(JsAt(at), deps)
  }

  /** A one-entry CSS list renders as its entry. */
  lemma RenderCssAllSingle(d: Dep, at: Loc)
    ensures RenderCssAll([d], at) == RenderCss(d, at)
  {
    RenderEachSingle(CssAt(at), d);
  }

  /** Rendering two CSS lists one after the other is rendering their
      concatenation: the texts in order, or the first failure. */
  lemma RenderCssAllAppend(a: seq<Dep>, b: seq<Dep>, at: Loc)
    ensures RenderCssAll(a + b, at) == Joined(RenderCssAll(a, at), RenderCssAll(b, at))
  {
    RenderEachAppend(CssAt(at), a, b);
  }

  /** A one-entry JS list renders as its entry. */
  lemma RenderJsAllSingle(d: Dep, at: Loc)
    ensures RenderJsAll([d], at) == RenderJs(d, at)
  {
    RenderEachSingle(JsAt(at), d);
  }

  /** Rendering two JS lists one after the other is rendering their
      concatenation: the texts in order, or the first failure. */
  lemma RenderJsAllAppend(a: seq<Dep>, b: seq<Dep>, at: Loc)
    ensures RenderJsAll(a + b, at) == Joined(RenderJsAll(a, at), RenderJsAll(b, at))
  {
    RenderEachAppend(JsAt(at), a, b);
  }

  // ---- embedded code stays inside its element ------------------------------

  /** A `</` starts at index `k` of `s`. */
  predicate CloserStarts(s: string, k: nat)
  {
    k + 1 < |s| && s[k] == '<' && s[k + 1] == '/'
  }

  predicate LtFree(s: string)
  {
    '<' !in s
  }

  lemma LtFreeJoin(a: string, b: string, c: string)
    requires LtFree(a) && LtFree(b) && LtFree(c)
    ensures LtFree(a + b + c)
  {
  }

  /** Code that passes the check, inside an element whose tags hold no
      other `<`, leaves `</` only where the closing tag starts. */
  lemma CloserOnlyAtClose(open: string, code: string, close: string)
    requires |open| > 0 && open[0] != '/' && LtFree(open) && LtFree(close)
    requires !Unsafe(code)
    ensures forall k :: CloserStarts(Element(open, code, close), k) ==> k == 1 + |open| + |code|
  {
    NoCloserInCode(code);
  }

  /** Code that passes the check holds no `</`. */
  lemma NoCloserInCode(code: string)
    requires !Unsafe(code)
    ensures forall i :: 0 <= i < |code| - 1 ==> !(code[i] == '<' && code[i + 1] == '/')
  {
    forall i | 0 <= i < |code| - 1
      ensures !(code[i] == '<' && code[i + 1] == '/')
    {
      assert !CloserAt(code, i, i + 1);
    }
  }

  /** `" media=…"` holds no `<`: the media query is attribute-escaped. */
  lemma MediaPartLtFree(media: Option<string>)
    ensures LtFree(MediaPart(media))
  {
    if media.Some? {
      var esc := AttrEscape(media.value);
      assert LtFree(esc);
      assert LtFree(" media=\"") && LtFree("\"");
      LtFreeJoin(" media=\"", esc, "\"");
    }
  }

  /** Embedded CSS that passes the check holds `</` only at the element's
      own `</style>`: the code cannot end the element early. */
  lemma EmbeddedCssStaysInside(code: string, media: Option<string>)
    requires !Unsafe(code)
    ensures var e := StyleElement(media, code);
      forall k :: CloserStarts(e, k) ==> k == |e| - |"</style>"|
  {
    StyleOpenLtFree(media);
    CloserOnlyAtClose(StyleOpen(media), code, "style>");
  }

  lemma StyleOpenLtFree(media: Option<string>)
    ensures |StyleOpen(media)| > 0 && StyleOpen(media)[0] == 's' && LtFree(StyleOpen(media))
  {
    MediaPartLtFree(media);
    LtFreeJoin("style", MediaPart(media), " type=\"text/css\">");
  }

  /** Embedded JavaScript that passes the check holds `</` only at the
      element's own `</script>`. */
  lemma EmbeddedJsStaysInside(code: string)
    requires !Unsafe(code)
    ensures var e := ScriptElement(code);
      forall k :: CloserStarts(e, k) ==> k == |e| - |"</script>"|
  {
    CloserOnlyAtClose("script type=\"text/javascript\">", code, "script>");
  }

  // ---- include-once expansion ----------------------------------------------

  /** Every bundle named in `deps` has a list in the table. */
  predicate BundlesIn(table: map<nat, seq<Dep>>, deps: seq<Dep>)
  {
    forall i :: 0 <= i < |deps| && deps[i].IncludeOnce? ==> deps[i].id in table
  }

  /** Every bundle named at the top of `deps` or of any bundle's list has a
      list in the table (in the source every JsIncludeOnce carries one). */
  predicate Closed(table: map<nat, seq<Dep>>, deps: seq<Dep>)
  {
    BundlesIn(table, deps) && forall id :: id in table ==> BundlesIn(table, table[id])
  }

  predicate NoBundles(deps: seq<Dep>)
  {
    forall i :: 0 <= i < |deps| ==> !deps[i].IncludeOnce?
  }

  /** The dependencies `add` hands to `renderJsDependency`, in order, and
      the bundles included so far. */
  datatype Expansion = Expansion(flat: seq<Dep>, included: set<nat>)

  lemma SubsetCard(a: set<nat>, b: set<nat>)
    requires a <= b
    ensures |a| <= |b|
    decreases a
  {
    if a != {} {
      var x :| x in a;
      SubsetCard(a - {x}, b - {x});
    }
  }

  /** Marking a bundle that was not yet included shrinks what is left. */
  lemma MarkShrinks(keys: set<nat>, included: set<nat>, id: nat)
    requires id in keys && id !in included
    ensures |keys - (included + {id})| < |keys - included|
  {
    var rest := keys - included;
    assert keys - (included + {id}) == rest - {id};
    assert rest == (rest - {id}) + {id};
  }

  lemma ClosedTail(table: map<nat, seq<Dep>>, deps: seq<Dep>)
    requires Closed(table, deps) && |deps| > 0
    ensures Closed(table, deps[1..])
  {
    assert forall i :: 1 <= i < |deps| ==> deps[i] == deps[1..][i - 1];
  }

  /** One entry of the list handed to `add`: a plain dependency is kept, an
      included bundle is skipped, and a new bundle is marked and expanded. */
  function ExpandOne(table: map<nat, seq<Dep>>, d: Dep, included: set<nat>): (r: Expansion)
    requires Closed(table, [d])
    ensures included <= r.included <= included + table.Keys
    ensures NoBundles(r.flat)
    ensures !d.IncludeOnce? ==> r == Expansion([d], included)
    ensures d.IncludeOnce? ==> d.id in r.included
    decreases |table.Keys - included|, 0
  {
    if !d.IncludeOnce? then Expansion([d], included)
    else if d.id in included then Expansion([], included)
    else
      assert [d][0] == d;
      MarkShrinks(table.Keys, included, d.id);
      Expand(table, table[d.id], included + {d.id})
  }

  /** The `add` closure of `renderJsDependencies`: a bundle is marked as
      included before its list is expanded, so a bundle nested in itself is
      expanded once; a bundle already included contributes nothing. */
  function Expand(table: map<nat, seq<Dep>>, deps: seq<Dep>, included: set<nat>): (r: Expansion)
    requires Closed(table, deps)
    ensures included <= r.included <= included + table.Keys
    ensures NoBundles(r.flat)
    ensures forall i :: 0 <= i < |deps| && deps[i].IncludeOnce? ==> deps[i].id in r.included
    decreases |table.Keys - included|, |deps|
  {
    if |deps| == 0 then Expansion([], included)
    else
      assert Closed(table, [deps[0]]);
      var head := ExpandOne(table, deps[0], included);
      SubsetCard(table.Keys - head.included, table.Keys - included);
      ClosedTail(table, deps);
      var rest := Expand(table, deps[1..], head.included);
      ExpandStep(deps, head, rest);
      Expansion(head.flat + rest.flat, rest.included)
  }

  /** The step of `Expand`: the head's bundles and the tail's bundles are
      all included once the two expansions are joined. */
  lemma ExpandStep(deps: seq<Dep>, head: Expansion, rest: Expansion)
    requires |deps| > 0 && NoBundles(head.flat) && NoBundles(rest.flat)
    requires head.included <= rest.included
    requires deps[0].IncludeOnce? ==> deps[0].id in head.included
    requires forall i :: 0 <= i < |deps[1..]| && deps[1..][i].IncludeOnce? ==> deps[1..][i].id in rest.included
    ensures NoBundles(head.flat + rest.flat)
    ensures forall i :: 0 <= i < |deps| && deps[i].IncludeOnce? ==> deps[i].id in rest.included
  {
    NoBundlesAppend(head.flat, rest.flat);
    assert forall i :: 1 <= i < |deps| ==> deps[i] == deps[1..][i - 1];
  }

  lemma NoBundlesAppend(a: seq<Dep>, b: seq<Dep>)
    requires NoBundles(a) && NoBundles(b)
    ensures NoBundles(a + b)
  {
    assert forall i :: 0 <= i < |a + b| ==> (a + b)[i] == if i < |a| then a[i] else b[i - |a|];
  }

  /** `renderJsDependencies`: the expanded list rendered and joined. */
  function RenderJsDependencies(table: map<nat, seq<Dep>>, deps: seq<Dep>, at: Loc): (r: Result<string>)
    requires Closed(table, deps)
    ensures r == RenderJsAll(Expand(table, deps, {}).flat, at)
    ensures NoBundles(deps) ==> r == RenderJsAll(deps, at)
  {
    ExpandPlain(table, deps, {});
    RenderJsAll(Expand(table, deps, {}).flat, at)
  }

  /** Naming a bundle again at the end of a list that already names it
      adds no script to the page. */
  lemma RepeatedBundleRendersOnce(table: map<nat, seq<Dep>>, deps: seq<Dep>, i: nat, at: Loc)
    requires Closed(table, deps) && i < |deps| && deps[i].IncludeOnce?
    ensures Closed(table, deps + [deps[i]])
    ensures RenderJsDependencies(table, deps + [deps[i]], at) == RenderJsDependencies(table, deps, at)
  {
    var once := [deps[i]];
    assert Closed(table, once);
    ExpandAppend(table, deps, once, {});
    var ea := Expand(table, deps, {});
    assert deps[i].id in ea.included;
    IncludedSkipped(table, deps[i].id, [], ea.included);
    assert once + [] == once;
    assert ea.flat + [] == ea.flat;
  }

  /** Without bundles the list is kept as it is, in order. */
  lemma {:induction false} ExpandPlain(table: map<nat, seq<Dep>>, deps: seq<Dep>, included: set<nat>)
    requires Closed(table, deps)
    ensures NoBundles(deps) ==> Expand(table, deps, included) == Expansion(deps, included)
    decreases |deps|
  {
    if |deps| > 0 && NoBundles(deps) {
      ClosedTail(table, deps);
      ExpandPlain(table, deps[1..], included);
      assert [deps[0]] + deps[1..] == deps;
    }
  }

  /** Expansion of a concatenation is the expansion of the first part
      followed by that of the second, from the bundles the first included. */
  lemma {:induction false} ExpandAppend(table: map<nat, seq<Dep>>, a: seq<Dep>, b: seq<Dep>, included: set<nat>)
    requires Closed(table, a) && Closed(table, b)
    ensures Closed(table, a + b)
    ensures var ea := Expand(table, a, included);
            var eb := Expand(table, b, ea.included);
            Expand(table, a + b, included) == Expansion(ea.flat + eb.flat, eb.included)
    decreases |a|
  {
    var ab := a + b;
    assert forall i :: 0 <= i < |ab| ==> ab[i] == if i < |a| then a[i] else b[i - |a|];
    assert Closed(table, ab);
    if |a| == 0 {
      assert ab == b;
    } else {
      assert ab[0] == a[0] && ab[1..] == a[1..] + b;
      ClosedTail(table, a);
      assert Closed(table, [a[0]]);
      var head := ExpandOne(table, a[0], included);
      ExpandAppend(table, a[1..], b, head.included);
      var e1 := Expand(table, a[1..], head.included);
      var e2 := Expand(table, b, e1.included);
      assert head.flat + (e1.flat + e2.flat) == (head.flat + e1.flat) + e2.flat;
    }
  }

  /** A bundle that is already included contributes nothing. */
  lemma IncludedSkipped(table: map<nat, seq<Dep>>, id: nat, rest: seq<Dep>, included: set<nat>)
    requires id in table && id in included && Closed(table, rest)
    ensures Closed(table, [IncludeOnce(id)] + rest)
    ensures Expand(table, [IncludeOnce(id)] + rest, included) == Expand(table, rest, included)
  {
    var once := [IncludeOnce(id)];
    assert Closed(table, once);
    ExpandAppend(table, once, rest, included);
    assert once[1..] == [];
    assert Expand(table, once, included) == Expansion([], included);
  }

  /** A bundle named twice in a row is expanded once: the second mention
      contributes nothing. */
  lemma ExpandedOnce(table: map<nat, seq<Dep>>, id: nat, rest: seq<Dep>, included: set<nat>)
    requires id in table && Closed(table, rest)
    ensures Closed(table, [IncludeOnce(id), IncludeOnce(id)] + rest) && Closed(table, [IncludeOnce(id)] + rest)
    ensures Expand(table, [IncludeOnce(id), IncludeOnce(id)] + rest, included) ==
            Expand(table, [IncludeOnce(id)] + rest, included)
  {
    var once := [IncludeOnce(id)];
    assert Closed(table, once);
    ExpandAppend(table, once, rest, included);
    ExpandAppend(table, once, once + rest, included);
    assert [IncludeOnce(id), IncludeOnce(id)] + rest == once + (once + rest);
    var e := Expand(table, once, included);
    assert once[1..] == [];
    assert e.included == ExpandOne(table, IncludeOnce(id), included).included;
    assert id in e.included;
    ExpandAppend(table, once, rest, e.included);
    assert Expand(table, once, e.included) == Expansion([], e.included);
  }

  /** A bundle whose own list names itself first and then a plain
      dependency expands to that dependency alone, and terminates. */
  lemma SelfNestedBundle(d: Dep, id: nat)
    requires !d.IncludeOnce?
    ensures var table := map[id := [IncludeOnce(id), d]];
            Closed(table, [IncludeOnce(id)]) &&
            Expand(table, [IncludeOnce(id)], {}).flat == [d]
  {
    var table := map[id := [IncludeOnce(id), d]];
    var inner := [IncludeOnce(id), d];
    assert Closed(table, inner);
    assert inner[1..] == [d] && [d][1..] == [];
    assert Closed(table, [d]);
    assert Closed(table, [IncludeOnce(id)]);
    assert Expand(table, [], {id}) == Expansion([], {id});
    assert Expand(table, [d], {id}) == Expansion([d], {id});
    assert ExpandOne(table, IncludeOnce(id), {id}) == Expansion([], {id});
    assert Expand(table, inner, {id}) == Expansion([d], {id});
    var none: set<nat> := {};
    assert table[id] == inner && none + {id} == {id};
    assert ExpandOne(table, IncludeOnce(id), none) == Expansion([d], {id});
    assert [IncludeOnce(id)][1..] == [];
  }
}
