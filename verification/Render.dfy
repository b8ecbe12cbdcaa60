/** The three widget folds of the renderer: `manualWidgetToText`
    (chopsgen.js:712-742), `widgetToTitle` (chopsgen.js:276-306) and
    `widgetToHtml` (chopsgen.js:270-709).  The rulebook's "no rule applied"
    becomes `Unsupported`; the state is threaded strictly left to right. */
module Render {
  import opened Wrappers
  import opened Strings
  import opened Escape
  import opened Paths
  import opened Widgets

  /** What `widgetToHtml` hands back: `{ state, js, css, html }`.  The rules
      for strings and HtmlRawWidgets leave `js` and `css` out (`None`), and
      the rules that pass a rendering through keep them as they were. */
  datatype Rendered = Rendered(st: State, js: Option<seq<Dep>>, css: Option<seq<Dep>>, html: string)

  /** `list || []`: a missing list read as the empty one. */
  function OrEmpty(o: Option<seq<Dep>>): seq<Dep>
  {
    if o.Some? then o.value else []
  }

  /** `acc.concat( list )`: the list's elements, or, for a missing list, the
      one `undefined` that `concat` appends in its place. */
  function Spread(o: Option<seq<Dep>>): seq<Dep>
  {
    if o.Some? then o.value else [Undefined]
  }

  /** A rendering with missing lists read as empty, as in an array. */
  function Listed(b: Rendered): Rendered
  {
    Rendered(b.st, Some(OrEmpty(b.js)), Some(OrEmpty(b.css)), b.html)
  }

  /** Two renderings one after the other, as the array rule joins them: the
      later state, the outputs concatenated in order, missing lists empty. */
  function Combine(x: Rendered, y: Rendered): Rendered
  {
    Rendered(y.st, Some(OrEmpty(x.js) + OrEmpty(y.js)), Some(OrEmpty(x.css) + OrEmpty(y.css)), x.html + y.html)
  }

  /** A generator's rendering before the rest, as a NiceWidget joins them
      with `concat`: a missing list becomes an `undefined` element. */
  function Gather(x: Rendered, y: Rendered): Rendered
  {
    Rendered(y.st, Some(Spread(x.js) + OrEmpty(y.js)), Some(Spread(x.css) + OrEmpty(y.css)), x.html + y.html)
  }

  /** An element around a rendered body, given the rendered attributes. */
  function Wrap(name: string, open: string, b: Rendered): Rendered
  {
    Rendered(b.st, b.js, b.css, "<" + name + open + ">" + b.html + "</" + name + ">")
  }

  /** The `href` attribute `my.tag( "a", "href", path )` gives a link. */
  function HrefAttrs(target: Loc): seq<Attr>
  {
    [Attr("href", PathValue(target))]
  }

  /** A name for each variant, used in the `Unsupported` error. */
  function VariantName(w: Widget): string
  {
    match w
    case Text(_) => "string"
    case Seq(_) => "array"
    case Tag(_, _, _) => "HtmlTag"
    case Block(_) => "BlockWidget"
    case NameNavLink(_) => "NameNavLink"
    case NavLink(_, _) => "NavLink"
    case RawHtml(_) => "HtmlRawWidget"
    case Deps(_, _) => "DepsWidget"
    case Nice(_, _, _) => "NiceWidget"
    case Token => "WidgetToken"
  }

  // ---- manualWidgetToText ---------------------------------------------------

  /** The widgets `manualWidgetToText` has a rule for, at every depth. */
  predicate IsManual(w: Widget)
  {
    match w
    case Text(_) => true
    case Token => true
    case Seq(items) => forall i :: 0 <= i < |items| ==> IsManual(items[i])
    case _ => false
  }

  /** Whether a WidgetToken occurs (through arrays) in `w`. */
  predicate HasToken(w: Widget)
  {
    match w
    case Token => true
    case Seq(items) => exists i :: 0 <= i < |items| && HasToken(items[i])
    case _ => false
  }

  /** Reference definition: `w` with every WidgetToken (through arrays)
      replaced by the string `t`. */
  function Fill(w: Widget, t: string): Widget
  {
    match w
    case Token => Text(t)
    case Seq(items) => Seq(FillSeq(items, t))
    case _ => w
  }

  function FillSeq(items: seq<Widget>, t: string): seq<Widget>
  {
    if |items| == 0 then [] else [Fill(items[0], t)] + FillSeq(items[1..], t)
  }

  /** `manualWidgetToText`: strings stand for themselves, arrays are joined,
      and a WidgetToken reads the top of the token stack.  None of the rules
      changes the state, so only the text is returned: the plain text of the
      widget with the top token written in for each WidgetToken. */
  function ManualText(w: Widget, st: State): (r: Result<string>)
    ensures r.Ok? <==> IsManual(w) && (HasToken(w) ==> |st.tokens| > 0)
    ensures r.Ok? && !HasToken(w) ==> r.value == PlainText(w)
    ensures r.Ok? && |st.tokens| > 0 ==> r.value == PlainText(Fill(w, st.tokens[0]))
    ensures r.Err? ==> r.error == TokenStackEmpty || r.error.Unsupported?
  {
    match w
    case Text(s) => Ok(s)
    case Token => if |st.tokens| == 0 then Err(TokenStackEmpty) else Ok(st.tokens[0])
    case Seq(items) => ManualSeq(items, st)
    case _ => Err(Unsupported(VariantName(w), "manualWidgetToText"))
  }

  function ManualSeq(items: seq<Widget>, st: State): (r: Result<string>)
    ensures r.Ok? <==> (forall i :: 0 <= i < |items| ==> IsManual(items[i]))
                       && ((exists i :: 0 <= i < |items| && HasToken(items[i])) ==> |st.tokens| > 0)
    ensures r.Ok? && (forall i :: 0 <= i < |items| ==> !HasToken(items[i])) ==> r.value == PlainTexts(items)
    ensures r.Ok? && |st.tokens| > 0 ==> r.value == PlainTexts(FillSeq(items, st.tokens[0]))
    ensures r.Err? ==> r.error == TokenStackEmpty || r.error.Unsupported?
  {
    if |items| == 0 then Ok("")
    else
      var a :- ManualText(items[0], st);
      var b :- ManualSeq(items[1..], st);
      assert forall i :: 1 <= i < |items| ==> items[i] == items[1..][i - 1];
      assert |st.tokens| > 0 ==> FillSeq(items, st.tokens[0])[1..] == FillSeq(items[1..], st.tokens[0]);
      Ok(a + b)
  }

  /** Only the top of the token stack matters to manual text: the counter,
      the pages and the rest of the stack are never read. */
  lemma {:induction false} ManualTextTopOnly(w: Widget, s1: State, s2: State)
    requires |s1.tokens| > 0 && |s2.tokens| > 0 && s1.tokens[0] == s2.tokens[0]
    ensures ManualText(w, s1) == ManualText(w, s2)
    decreases w, 1
  {
    if w.Seq? {
      ManualSeqTopOnly(w.items, s1, s2);
    }
  }

  lemma {:induction false} ManualSeqTopOnly(items: seq<Widget>, s1: State, s2: State)
    requires |s1.tokens| > 0 && |s2.tokens| > 0 && s1.tokens[0] == s2.tokens[0]
    ensures ManualSeq(items, s1) == ManualSeq(items, s2)
    decreases items, 0
  {
    if |items| > 0 {
      ManualTextTopOnly(items[0], s1, s2);
      ManualSeqTopOnly(items[1..], s1, s2);
    }
  }

  /** Manual text without a token does not read the state at all. */
  lemma {:induction false} ManualTextStateFree(w: Widget, s1: State, s2: State)
    requires !HasToken(w)
    ensures ManualText(w, s1) == ManualText(w, s2)
    decreases w, 1
  {
    if w.Seq? {
      ManualSeqStateFree(w.items, s1, s2);
    }
  }

  lemma {:induction false} ManualSeqStateFree(items: seq<Widget>, s1: State, s2: State)
    requires forall i :: 0 <= i < |items| ==> !HasToken(items[i])
    ensures ManualSeq(items, s1) == ManualSeq(items, s2)
    decreases items, 0
  {
    if |items| > 0 {
      ManualTextStateFree(items[0], s1, s2);
      ManualSeqStateFree(items[1..], s1, s2);
    }
  }

  lemma ManualTextStateFreeIf(w: Widget, s1: State, s2: State)
    ensures !HasToken(w) ==> ManualText(w, s1) == ManualText(w, s2)
  {
    if !HasToken(w) {
      ManualTextStateFree(w, s1, s2);
    }
  }

  // ---- widgetToTitle --------------------------------------------------------

  /** The widgets `widgetToTitle` has a rule for: strings and arrays. */
  predicate IsTitle(w: Widget)
  {
    match w
    case Text(_) => true
    case Seq(items) => forall i :: 0 <= i < |items| ==> IsTitle(items[i])
    case _ => false
  }

  /** Reference definition: the plain text a title widget spells out. */
  function PlainText(w: Widget): string
  {
    match w
    case Text(s) => s
    case Seq(items) => PlainTexts(items)
    case _ => ""
  }

  function PlainTexts(items: seq<Widget>): string
  {
    if |items| == 0 then "" else PlainText(items[0]) + PlainTexts(items[1..])
  }

  /** `widgetToTitle`: escaping each string and joining is escaping the
      whole text once, so a title is free of markup and decodes back to its
      plain text. */
  function Title(w: Widget): (r: Result<string>)
    ensures r.Ok? <==> IsTitle(w)
    ensures r.Ok? ==> r.value == HtmlEscape(PlainText(w))
    ensures r.Ok? ==> Unescape(r.value) == PlainText(w)
    ensures r.Ok? ==> forall i :: 0 <= i < |r.value| ==> r.value[i] != '<' && r.value[i] != '>'
    ensures r.Err? ==> r.error.Unsupported?
  {
    match w
    case Text(s) => Ok(HtmlEscape(s))
    case Seq(items) => TitleSeq(items)
    case _ => Err(Unsupported(VariantName(w), "widgetToTitle"))
  }

  function TitleSeq(items: seq<Widget>): (r: Result<string>)
    ensures r.Ok? <==> forall i :: 0 <= i < |items| ==> IsTitle(items[i])
    ensures r.Ok? ==> r.value == HtmlEscape(PlainTexts(items))
    ensures r.Err? ==> r.error.Unsupported?
  {
    if |items| == 0 then
      assert HtmlEscape("") == "";
      Ok("")
    else
      var a :- Title(items[0]);
      var b :- TitleSeq(items[1..]);
      assert forall i :: 1 <= i < |items| ==> items[i] == items[1..][i - 1];
      HtmlEscapeAppend(PlainText(items[0]), PlainTexts(items[1..]));
      Ok(a + b)
  }

  // ---- widgetToHtml ---------------------------------------------------------

  /** The render state after a widget keeps the token stack and the pages
      of the state before it, and its counter has not gone down. */
  predicate Keeps(before: State, after: State)
  {
    after.tokens == before.tokens && after.pages == before.pages && after.counter >= before.counter
  }

  /** Whether rendering `w` could consult the page registry. */
  predicate NoNameLinks(w: Widget)
  {
    match w
    case NameNavLink(_) => false
    case Seq(items) => forall i :: 0 <= i < |items| ==> NoNameLinks(items[i])
    case Tag(_, _, body) => NoNameLinks(body)
    case Block(inner) => NoNameLinks(inner)
    case NavLink(_, content) => NoNameLinks(content)
    case Nice(_, _, hg) => forall i :: 0 <= i < |hg| ==> NoNameLinksGen(hg[i])
    case _ => true
  }

  predicate NoNameLinksGen(g: HtmlGen)
  {
    g.WidgetHtml? ==> NoNameLinks(g.body)
  }

  /** The number of NiceWidgets that rendering `w` visits. */
  function NiceCount(w: Widget): nat
  {
    match w
    case Seq(items) => NiceCountSeq(items)
    case Tag(_, _, body) => NiceCount(body)
    case Block(inner) => NiceCount(inner)
    case NavLink(_, content) => NiceCount(content)
    case Nice(_, _, hg) => 1 + NiceCountGens(hg)
    case _ => 0
  }

  function NiceCountSeq(items: seq<Widget>): nat
  {
    if |items| == 0 then 0 else NiceCount(items[0]) + NiceCountSeq(items[1..])
  }

  function NiceCountGens(gens: seq<HtmlGen>): nat
  {
    if |gens| == 0 then 0 else NiceCountGen(gens[0]) + NiceCountGens(gens[1..])
  }

  function NiceCountGen(g: HtmlGen): nat
  {
    match g
    case WidgetHtml(body) => NiceCount(body)
    case ManualHtml(_) => 0
  }

  /** The text of one attribute value: a plain path goes through `from`
      against the location being rendered; a masked path has no
      `manualWidgetToText` rule. */
  function AttrText(v: AttrValue, at: Loc, st: State): (r: Result<string>)
    ensures v.PathValue? && v.loc.Plain? && at.Plain? ==> r.Ok?
    ensures v.TextValue? ==> r == ManualText(v.w, st)
  {
    match v
    case PathValue(l) =>
      if l.Plain? then From(l.path, at)
      else Err(Unsupported("MaskedPath", "manualWidgetToText"))
    case TextValue(w) => ManualText(w, st)
  }

  /** The ` name="value"` pairs of an opening tag, in order. */
  function RenderAttrs(attrs: seq<Attr>, at: Loc, st: State): (r: Result<string>)
    ensures r.Ok? && (forall i :: 0 <= i < |attrs| ==> AttrNameOk(attrs[i].name)) ==> AngleFree(r.value)
    ensures |attrs| == 0 ==> r == Ok("")
  {
    if |attrs| == 0 then Ok("")
    else
      var text :- AttrText(attrs[0].value, at, st);
      var rest :- RenderAttrs(attrs[1..], at, st);
      var name := attrs[0].name;
      var s := " " + name + "=\"" + AttrEscape(text) + "\"" + rest;
      assert forall i :: 1 <= i < |attrs| ==> attrs[i] == attrs[1..][i - 1];
      AttrPairAngleFree(name, AttrEscape(text), rest);
      Ok(s)
  }

  /** One ` name="value"` pair: the value's text, attribute-escaped, in
      double quotes after the name; or the failure of the value. */
  function AttrPair(a: Attr, at: Loc, st: State): (r: Result<string>)
    ensures r.Ok? <==> AttrText(a.value, at, st).Ok?
  {
    var text :- AttrText(a.value, at, st);
    Ok(" " + a.name + "=\"" + AttrEscape(text) + "\"")
  }

  /** The first attribute's pair comes first and the others' follow in
      order; the first failure is the result's failure. */
  lemma RenderAttrsCons(a: Attr, rest: seq<Attr>, at: Loc, st: State)
    ensures RenderAttrs([a] + rest, at, st) == Joined(AttrPair(a, at, st), RenderAttrs(rest, at, st))
  {
  }

  lemma HrefSpelling()
    ensures " " + "href" + "=\"" == " href=\""
  {
  }

  /** The `href` of a link to a plain path from a plain location. */
  lemma HrefText(p: Path, b: Path, st: State)
    ensures RenderAttrs(HrefAttrs(Plain(p)), Plain(b), st) ==
      Ok(" href=\"" + AttrEscape(From(p, Plain(b)).value) + "\"")
  {
    RenderAttrsCons(Attr("href", PathValue(Plain(p))), [], Plain(b), st);
    assert HrefAttrs(Plain(p)) == [Attr("href", PathValue(Plain(p)))] + [];
    HrefSpelling();
    var a := Attr("href", PathValue(Plain(p)));
    var link := From(p, Plain(b));
    assert AttrText(a.value, Plain(b), st) == link && link.Ok?;
    var pair := " " + a.name + "=\"" + AttrEscape(link.value) + "\"";
    assert AttrPair(a, Plain(b), st) == Ok(pair);
    assert pair == (" " + "href" + "=\"") + AttrEscape(link.value) + "\"";
    assert pair + "" == pair;
  }

  /** A link's `href` attribute: unescaped, its value is the `from` of the
      target, and for a target at or below the page it resolves back to the
      target. */
  lemma HrefResolves(p: Path, b: Path, st: State)
    ensures var r := RenderAttrs(HrefAttrs(Plain(p)), Plain(b), st);
      r.Ok? &&
      (exists h :: r.value == " href=\"" + h + "\"" && Unescape(h) == From(p, Plain(b)).value &&
        (Printable(p) && |b.dirs| <= |p.dirs| && b.dirs == p.dirs[..|b.dirs|] ==>
          ToPath(Unescape(h), Some(Plain(b))) == Ok(Some(p))))
  {
    HrefText(p, b, st);
    var h := AttrEscape(From(p, Plain(b)).value);
    if Printable(p) && |b.dirs| <= |p.dirs| && b.dirs == p.dirs[..|b.dirs|] {
      ResolveFrom(p, b);
    }
    assert Unescape(h) == From(p, Plain(b)).value;
  }

  /** One ` name="value"` pair in front of angle-free text stays angle-free
      when the name is valid and the value is escaped. */
  lemma AttrPairAngleFree(name: string, esc: string, rest: string)
    ensures AttrNameOk(name) && AngleFree(esc) && AngleFree(rest) ==>
      AngleFree(" " + name + "=\"" + esc + "\"" + rest)
  {
    if AttrNameOk(name) && AngleFree(esc) && AngleFree(rest) {
      var sp, eq, qu := " ", "=\"", "\"";
      assert AngleFree(sp) && AngleFree(eq) && AngleFree(qu);
      assert AngleFree(name);
      AngleFreeAppend(sp, name);
      AngleFreeAppend(sp + name, eq);
      AngleFreeAppend(sp + name + eq, esc);
      AngleFreeAppend(sp + name + eq + esc, qu);
      AngleFreeAppend(sp + name + eq + esc + qu, rest);
    }
  }

  /** `widgetToHtml`.  `fuel` bounds how many NameNavLinks may be followed
      into page names; running out stands for the unbounded recursion the
      source would fall into on page names that link to each other. */
  function Html(w: Widget, at: Loc, st: State, fuel: nat): (r: Result<Rendered>)
    ensures r.Ok? ==> Keeps(st, r.value.st)
    ensures r.Ok? && w.Nice? ==> r.value.st.counter > st.counter
    ensures r.Ok? && NoNameLinks(w) ==> r.value.st.counter == st.counter + NiceCount(w)
    ensures r.Ok? && w.Text? ==> Unescape(r.value.html) == w.s
    ensures r.Ok? && (w.Text? || w.RawHtml?) ==> r.value.js.None? && r.value.css.None?
    ensures r.Ok? && (w.Seq? || w.Deps? || w.Nice?) ==> r.value.js.Some? && r.value.css.Some?
    ensures w.Token? ==> r.Err?
    decreases fuel, w, 0
  {
    match w
    case Text(s) => Ok(Rendered(st, None, None, HtmlEscape(s)))
    case Seq(items) => HtmlSeq(items, at, st, fuel)
    case Tag(name, attrs, body) => HtmlTag(name, attrs, body, at, st, fuel)
    case Block(inner) => Html(inner, at, st, fuel)
    case NameNavLink(target) => NameLink(target, at, st, fuel)
    case NavLink(target, content) => Link(target, content, at, st, fuel)
    case RawHtml(h) => Ok(Rendered(st, None, None, h))
    case Deps(js, css) => Ok(Rendered(st, Some(js), Some(css), ""))
    case Nice(jg, cg, hg) => HtmlNice(jg, cg, hg, at, st, fuel)
    case Token => Err(Unsupported(VariantName(w), "widgetToHtml"))
  }

  /** An HtmlTag: the opening tag with its attributes, the body, the closing tag. */
  function HtmlTag(name: string, attrs: seq<Attr>, body: Widget, at: Loc, st: State, fuel: nat): (r: Result<Rendered>)
    ensures r.Ok? ==> Keeps(st, r.value.st)
    ensures r.Ok? && NoNameLinks(body) ==> r.value.st.counter == st.counter + NiceCount(body)
    decreases fuel, body, 1
  {
    var open :- RenderAttrs(attrs, at, st);
    var b :- Html(body, at, st, fuel);
    Ok(Wrap(name, open, b))
  }

  /** A NameNavLink: a NavLink to the page, showing the page's name widget. */
  function NameLink(target: Loc, at: Loc, st: State, fuel: nat): (r: Result<Rendered>)
    ensures r.Ok? ==> Keeps(st, r.value.st)
    ensures target.Plain? && Abs(target.path) !in st.pages ==> r == Err(UnknownPage)
    decreases fuel, target, 1
  {
    var key :- LocAbs(target);
    if key !in st.pages then Err(UnknownPage)
    else if fuel == 0 then Err(NameCycle)
    else Link(target, st.pages[key].name, at, st, fuel - 1)
  }

  /** A NiceWidget: a fresh token from the counter, which is advanced; the
      generators' outputs are collected with that token on the stack. */
  function HtmlNice(jg: seq<JsGen>, cg: seq<CssGen>, hg: seq<HtmlGen>, at: Loc, st: State, fuel: nat): (r: Result<Rendered>)
    ensures r.Ok? ==> Keeps(st, r.value.st) && r.value.st.counter > st.counter
    ensures r.Ok? ==> r.value.js.Some? && r.value.css.Some?
    ensures r.Ok? && (forall i :: 0 <= i < |hg| ==> NoNameLinksGen(hg[i])) ==>
      r.value.st.counter == st.counter + 1 + NiceCountGens(hg)
    decreases fuel, hg, 1
  {
    var tok := NiceToken(st.counter);
    var st1 := st.(counter := st.counter + 1);
    var js :- JsGens(jg, tok, st1);
    var css :- CssGens(cg, tok, st1);
    var h :- HtmlGens(hg, tok, at, st1, fuel);
    Ok(Rendered(h.st, Some(js + OrEmpty(h.js)), Some(css + OrEmpty(h.css)), h.html))
  }

  /** NavLink, and NameNavLink once the page name is looked up: the content
      alone when the link would be redundant, else an `<a href>` around it
      (whose body is the array `[ content ]`). */
  function Link(target: Loc, content: Widget, at: Loc, st: State, fuel: nat): (r: Result<Rendered>)
    ensures r.Ok? ==> Keeps(st, r.value.st)
    ensures r.Ok? && NoNameLinks(content) ==> r.value.st.counter == st.counter + NiceCount(content)
    ensures target.Masked? ==> r == Err(MaskedPathMisuse)
    decreases fuel, content, 1
  {
    var redundant :- LocRedundant(target, at);
    if redundant then Html(content, at, st, fuel)
    else
      var open :- RenderAttrs(HrefAttrs(target), at, st);
      var b :- Html(content, at, st, fuel);
      Ok(Wrap("a", open, Listed(b)))
  }

  /** An array: each element rendered in turn, outputs concatenated. */
  function HtmlSeq(items: seq<Widget>, at: Loc, st: State, fuel: nat): (r: Result<Rendered>)
    ensures r.Ok? ==> Keeps(st, r.value.st)
    ensures r.Ok? ==> r.value.js.Some? && r.value.css.Some?
    ensures r.Ok? && (forall i :: 0 <= i < |items| ==> NoNameLinks(items[i])) ==>
      r.value.st.counter == st.counter + NiceCountSeq(items)
    decreases fuel, items, 0
  {
    if |items| == 0 then Ok(Rendered(st, Some([]), Some([]), ""))
    else
      var a :- Html(items[0], at, st, fuel);
      var b :- HtmlSeq(items[1..], at, a.st, fuel);
      assert forall i :: 1 <= i < |items| ==> items[i] == items[1..][i - 1];
      Ok(Combine(a, b))
  }

  /** A manual generator: the token is pushed for the duration of the manual
      text and popped again, which restores the state (`UnpushPush`). */
  function ManualGen(code: Widget, tok: string, st: State): (r: Result<string>)
    ensures r.Ok? <==> IsManual(code)
    ensures r.Ok? ==> r.value == PlainText(Fill(code, tok))
    ensures code.Token? ==> r == Ok(tok)
    ensures !HasToken(code) ==> r == ManualText(code, st)
  {
    ManualTextStateFreeIf(code, Push(st, tok), st);
    ManualText(code, Push(st, tok))
  }

  /** The JS values of a NiceWidget's JS generators, in order. */
  function JsGens(gens: seq<JsGen>, tok: string, st: State): (r: Result<seq<Dep>>)
    ensures r.Ok? ==> |r.value| == |gens|
    ensures r.Ok? ==> forall i :: 0 <= i < |gens| ==>
      (gens[i].IncludeOnceJs? ==> r.value[i] == IncludeOnce(gens[i].bundle)) &&
      (gens[i].ManualJs? ==> r.value[i] == Embedded(PlainText(Fill(gens[i].code, tok)), None))
  {
    if |gens| == 0 then Ok([])
    else
      var d :- match gens[0]
        case IncludeOnceJs(id) => Ok(IncludeOnce(id))
        case ManualJs(code) =>
          var t :- ManualGen(code, tok, st);
          Ok(Embedded(t, None));
      var rest :- JsGens(gens[1..], tok, st);
      assert forall i :: 1 <= i < |gens| ==> gens[i] == gens[1..][i - 1];
      Ok([d] + rest)
  }

  /** The CSS values of a NiceWidget's CSS generators, in order. */
  function CssGens(gens: seq<CssGen>, tok: string, st: State): (r: Result<seq<Dep>>)
    ensures r.Ok? ==> |r.value| == |gens|
    ensures r.Ok? ==> forall i :: 0 <= i < |gens| ==> r.value[i] == Embedded(PlainText(Fill(gens[i].code, tok)), None)
  {
    if |gens| == 0 then Ok([])
    else
      var t :- ManualGen(gens[0].code, tok, st);
      var rest :- CssGens(gens[1..], tok, st);
      assert forall i :: 1 <= i < |gens| ==> gens[i] == gens[1..][i - 1];
      Ok([Embedded(t, None)] + rest)
  }

  /** The HTML generators of a NiceWidget, with the state threaded and the
      outputs joined by `concat`. */
  function HtmlGens(gens: seq<HtmlGen>, tok: string, at: Loc, st: State, fuel: nat): (r: Result<Rendered>)
    ensures r.Ok? ==> Keeps(st, r.value.st)
    ensures r.Ok? ==> r.value.js.Some? && r.value.css.Some?
    ensures r.Ok? && (forall i :: 0 <= i < |gens| ==> NoNameLinksGen(gens[i])) ==>
      r.value.st.counter == st.counter + NiceCountGens(gens)
    decreases fuel, gens, 0
  {
    if |gens| == 0 then Ok(Rendered(st, Some([]), Some([]), ""))
    else
      var g :- HtmlGen1(gens[0], tok, at, st, fuel);
      var rest :- HtmlGens(gens[1..], tok, at, g.st, fuel);
      assert forall i :: 1 <= i < |gens| ==> gens[i] == gens[1..][i - 1];
      Ok(Gather(g, rest))
  }

  function HtmlGen1(g: HtmlGen, tok: string, at: Loc, st: State, fuel: nat): (r: Result<Rendered>)
    ensures r.Ok? ==> Keeps(st, r.value.st)
    ensures r.Ok? && NoNameLinksGen(g) ==>
      r.value.st.counter == st.counter + NiceCountGen(g)
    decreases fuel, g, 0
  {
    match g
    case ManualHtml(code) =>
      var t :- ManualGen(code, tok, st);
      Ok(Rendered(st, Some([]), Some([]), t))
    case WidgetHtml(body) =>
      var b :- Html(body, at, Push(st, tok), fuel);
      var popped := Unpush(b.st);
      if popped.Err? then Err(StateUnderflow)
      else Ok(Rendered(popped.value, b.js, b.css, b.html))
  }

  // ---- properties -----------------------------------------------------------

  /** The outcome of rendering `a` and then, from the state it leaves, `b`. */
  function ThenSeq(x: Result<Rendered>, b: seq<Widget>, at: Loc, fuel: nat): Result<Rendered>
  {
    match x
    case Err(e) => Err(e)
    case Ok(rx) =>
      match HtmlSeq(b, at, rx.st, fuel)
      case Err(e) => Err(e)
      case Ok(ry) => Ok(Combine(rx, ry))
  }

  /** Rendering an array is a homomorphism: the array `a + b` renders as `a`
      followed by `b`, the state threaded from one to the other and the js,
      css and html outputs concatenated in order. */
  lemma {:induction false} HtmlSeqAppend(a: seq<Widget>, b: seq<Widget>, at: Loc, st: State, fuel: nat)
    ensures HtmlSeq(a + b, at, st, fuel) == ThenSeq(HtmlSeq(a, at, st, fuel), b, at, fuel)
  {
    if |a| == 0 {
      assert a + b == b;
      var e := Rendered(st, Some([]), Some([]), "");
      assert HtmlSeq(a, at, st, fuel) == Ok(e);
      var y := HtmlSeq(b, at, st, fuel);
      if y.Ok? {
        assert [] + OrEmpty(y.value.js) == y.value.js.value;
        assert [] + OrEmpty(y.value.css) == y.value.css.value;
        assert Combine(e, y.value) == y.value;
      }
    } else {
      var ab := a + b;
      assert ab[0] == a[0];
      assert ab[1..] == a[1..] + b;
      var h := Html(a[0], at, st, fuel);
      if h.Ok? {
        HtmlSeqAppend(a[1..], b, at, h.value.st, fuel);
        var r1 := HtmlSeq(a[1..], at, h.value.st, fuel);
        if r1.Ok? {
          var r2 := HtmlSeq(b, at, r1.value.st, fuel);
          if r2.Ok? {
            CombineAssoc(h.value, r1.value, r2.value);
          }
        }
      }
    }
  }

  lemma CombineAssoc(x: Rendered, y: Rendered, z: Rendered)
    ensures Combine(x, Combine(y, z)) == Combine(Combine(x, y), z)
  {
    assert OrEmpty(x.js) + (OrEmpty(y.js) + OrEmpty(z.js)) == (OrEmpty(x.js) + OrEmpty(y.js)) + OrEmpty(z.js);
    assert OrEmpty(x.css) + (OrEmpty(y.css) + OrEmpty(z.css)) == (OrEmpty(x.css) + OrEmpty(y.css)) + OrEmpty(z.css);
    assert x.html + (y.html + z.html) == (x.html + y.html) + z.html;
  }

  /** A rendering with its missing lists read as empty. */
  function AsList(x: Result<Rendered>): Result<Rendered>
  {
    if x.Err? then x else Ok(Listed(x.value))
  }

  /** An array of one widget renders as the widget, except that a list the
      widget leaves out is the empty list. */
  lemma HtmlSeqSingle(w: Widget, at: Loc, st: State, fuel: nat)
    ensures HtmlSeq([w], at, st, fuel) == AsList(Html(w, at, st, fuel))
  {
    assert [w][0] == w;
    assert [w][1..] == [];
    var h := Html(w, at, st, fuel);
    if h.Ok? {
      var a := h.value;
      var e := Rendered(a.st, Some([]), Some([]), "");
      assert HtmlSeq([], at, a.st, fuel) == Ok(e);
      assert OrEmpty(a.js) + [] == OrEmpty(a.js) && OrEmpty(a.css) + [] == OrEmpty(a.css) && a.html + "" == a.html;
      assert Combine(a, e) == Listed(a);
    }
  }

  /** A NavLink renders as its content exactly when the link would be
      redundant, and otherwise as the tag `my.tag( "a", "href", path )`
      (which passes the HtmlTag checks) around the content. */
  lemma NavLinkIsTag(p: Path, content: Widget, at: Loc, st: State, fuel: nat)
    ensures MakeTag("a", HrefAttrs(Plain(p)), Seq([content])).Ok?
    ensures Html(NavLink(Plain(p), content), at, st, fuel) ==
      if LinkWouldBeRedundant(p, at) then Html(content, at, st, fuel)
      else Html(Tag("a", HrefAttrs(Plain(p)), Seq([content])), at, st, fuel)
  {
    HrefTagValid(Plain(p), Seq([content]));
    if !LinkWouldBeRedundant(p, at) {
      LinkUnredundant(p, content, at, st, fuel);
      TagOfOne(HrefAttrs(Plain(p)), content, at, st, fuel);
    }
  }

  /** The rendering of a tag around a rendered body. */
  function Wrapped(name: string, open: Result<string>, body: Result<Rendered>): Result<Rendered>
  {
    if open.Err? then Err(open.error) else if body.Err? then Err(body.error) else Ok(Wrap(name, open.value, body.value))
  }

  lemma LinkUnredundant(p: Path, content: Widget, at: Loc, st: State, fuel: nat)
    requires !LinkWouldBeRedundant(p, at)
    ensures Html(NavLink(Plain(p), content), at, st, fuel) ==
      Wrapped("a", RenderAttrs(HrefAttrs(Plain(p)), at, st), AsList(Html(content, at, st, fuel)))
  {
    assert LocRedundant(Plain(p), at) == Ok(false);
    NavLinkIsLink(Plain(p), content, at, st, fuel);
    LinkOfUnredundant(Plain(p), content, at, st, fuel);
  }

  lemma NavLinkIsLink(target: Loc, content: Widget, at: Loc, st: State, fuel: nat)
    ensures Html(NavLink(target, content), at, st, fuel) == Link(target, content, at, st, fuel)
  {
    var w := NavLink(target, content);
    assert w.target == target && w.content == content;
  }

  lemma LinkOfUnredundant(target: Loc, content: Widget, at: Loc, st: State, fuel: nat)
    requires LocRedundant(target, at) == Ok(false)
    ensures Link(target, content, at, st, fuel) ==
      Wrapped("a", RenderAttrs(HrefAttrs(target), at, st), AsList(Html(content, at, st, fuel)))
  {
  }

  lemma TagOfOne(attrs: seq<Attr>, content: Widget, at: Loc, st: State, fuel: nat)
    ensures Html(Tag("a", attrs, Seq([content])), at, st, fuel) ==
      Wrapped("a", RenderAttrs(attrs, at, st), AsList(Html(content, at, st, fuel)))
  {
    HtmlSeqSingle(content, at, st, fuel);
    SeqIsHtmlSeq([content], at, st, fuel);
    TagIsHtmlTag("a", attrs, Seq([content]), at, st, fuel);
  }

  lemma SeqIsHtmlSeq(items: seq<Widget>, at: Loc, st: State, fuel: nat)
    ensures Html(Seq(items), at, st, fuel) == HtmlSeq(items, at, st, fuel)
  {
    var w := Seq(items);
    assert w.items == items;
  }

  lemma TagIsHtmlTag(name: string, attrs: seq<Attr>, body: Widget, at: Loc, st: State, fuel: nat)
    ensures Html(Tag(name, attrs, body), at, st, fuel) ==
      Wrapped(name, RenderAttrs(attrs, at, st), Html(body, at, st, fuel))
  {
    var w := Tag(name, attrs, body);
    assert w.name == name && w.attrs == attrs && w.body == body;
    assert Html(w, at, st, fuel) == HtmlTag(name, attrs, body, at, st, fuel);
  }

  lemma HrefTagValid(target: Loc, body: Widget)
    ensures MakeTag("a", HrefAttrs(target), body).Ok?
  {
    var a, href := "a", "href";
    assert TagNameOk(a);
    assert AttrNameOk(href);
  }

  /** A NameNavLink is a NavLink whose content is the linked page's name
      widget, rendered with one unit of fuel fewer. */
  lemma NameNavLinkIsNavLink(p: Path, at: Loc, st: State, fuel: nat)
    requires Abs(p) in st.pages && fuel > 0
    ensures Html(NameNavLink(Plain(p)), at, st, fuel) ==
      Html(NavLink(Plain(p), st.pages[Abs(p)].name), at, st, fuel - 1)
  {
  }

  /** A NameNavLink to a page the registry lacks fails. */
  lemma NameNavLinkUnknown(p: Path, at: Loc, st: State, fuel: nat)
    requires Abs(p) !in st.pages
    ensures Html(NameNavLink(Plain(p)), at, st, fuel) == Err(UnknownPage)
  {
  }

  /** On the page it names, a NameNavLink is just that page's name. */
  lemma NameNavLinkOnOwnPage(p: Path, st: State, fuel: nat)
    requires Abs(p) in st.pages && fuel > 0
    ensures Html(NameNavLink(Plain(p)), Plain(p), st, fuel) ==
      Html(st.pages[Abs(p)].name, Plain(p), st, fuel - 1)
  {
    var name := st.pages[Abs(p)].name;
    NameNavLinkIsNavLink(p, Plain(p), st, fuel);
    NavLinkIsLink(Plain(p), name, Plain(p), st, fuel - 1);
    assert LocRedundant(Plain(p), Plain(p)) == Ok(true);
  }

  /** The next NiceWidget rendered after a NiceWidget gets another token. */
  lemma NiceTokensFresh(w: Widget, at: Loc, st: State, fuel: nat)
    requires w.Nice? && Html(w, at, st, fuel).Ok?
    ensures NiceToken(st.counter) != NiceToken(Html(w, at, st, fuel).value.st.counter)
  {
    NiceTokenDistinct(st.counter, Html(w, at, st, fuel).value.st.counter);
  }

  /** A NiceWidget whose only generator is `manualHtml` of a WidgetToken
      renders its own token, raising the counter by one. */
  lemma NiceSeesOwnToken(at: Loc, st: State, fuel: nat)
    ensures Html(Nice([], [], [ManualHtml(Token)]), at, st, fuel) ==
      Ok(Rendered(st.(counter := st.counter + 1), Some([]), Some([]), NiceToken(st.counter)))
  {
    var st1 := st.(counter := st.counter + 1);
    var tok := NiceToken(st.counter);
    var gs := [ManualHtml(Token)];
    assert JsGens([], tok, st1) == Ok([]);
    assert CssGens([], tok, st1) == Ok([]);
    assert ManualGen(Token, tok, st1) == Ok(tok);
    var none: seq<Dep> := [];
    assert HtmlGen1(gs[0], tok, at, st1, fuel) == Ok(Rendered(st1, Some(none), Some(none), tok));
    assert gs[1..] == [];
    assert HtmlGens([], tok, at, st1, fuel) == Ok(Rendered(st1, Some(none), Some(none), ""));
    assert none + none == none && tok + "" == tok;
    assert Gather(Rendered(st1, Some(none), Some(none), tok), Rendered(st1, Some(none), Some(none), "")) == Rendered(st1, Some(none), Some(none), tok);
    assert HtmlGens(gs, tok, at, st1, fuel) == Ok(Rendered(st1, Some(none), Some(none), tok));
  }

  /** A NiceWidget whose one generator is `widgetHtml` of a string: the
      string's rendering has no `js` or `css` list, so `concat` puts an
      `undefined` into each of the NiceWidget's lists. */
  lemma WidgetHtmlOfString(s: string, at: Loc, st: State, fuel: nat)
    ensures Html(Nice([], [], [WidgetHtml(Text(s))]), at, st, fuel) ==
      Ok(Rendered(st.(counter := st.counter + 1), Some([Undefined]), Some([Undefined]), HtmlEscape(s)))
  {
    NiceOfString(s, at, st, fuel);
  }

  lemma NiceOfString(s: string, at: Loc, st: State, fuel: nat)
    ensures HtmlNice([], [], [WidgetHtml(Text(s))], at, st, fuel) ==
      Ok(Rendered(st.(counter := st.counter + 1), Some([Undefined]), Some([Undefined]), HtmlEscape(s)))
  {
    var st1 := st.(counter := st.counter + 1);
    var tok := NiceToken(st.counter);
    var none: seq<Dep> := [];
    StringGenGathers(s, tok, at, st1, fuel);
    assert JsGens([], tok, st1) == Ok(none) && CssGens([], tok, st1) == Ok(none);
    assert none + [Undefined] == [Undefined];
  }

  /** The one generator of `WidgetHtmlOfString`, gathered: its `undefined`
      lists, and its string escaped. */
  lemma StringGenGathers(s: string, tok: string, at: Loc, st1: State, fuel: nat)
    ensures HtmlGens([WidgetHtml(Text(s))], tok, at, st1, fuel) ==
      Ok(Rendered(st1, Some([Undefined]), Some([Undefined]), HtmlEscape(s)))
  {
    var gs := [WidgetHtml(Text(s))];
    var none: seq<Dep> := [];
    var g := Rendered(st1, None, None, HtmlEscape(s));
    var e := Rendered(st1, Some(none), Some(none), "");
    assert HtmlGen1(gs[0], tok, at, st1, fuel) == Ok(g) by {
      UnpushPush(st1, tok);
      TextRenders(s, at, Push(st1, tok), fuel);
    }
    assert HtmlGens(gs, tok, at, st1, fuel) == Ok(Gather(g, e)) by {
      assert gs[1..] == [];
      assert HtmlGens([], tok, at, st1, fuel) == Ok(e);
    }
    assert Gather(g, e) == Rendered(st1, Some([Undefined]), Some([Undefined]), HtmlEscape(s)) by {
      assert [Undefined] + none == [Undefined] && HtmlEscape(s) + "" == HtmlEscape(s);
    }
  }

  /** A string renders as its escape, with no `js` or `css` list. */
  lemma TextRenders(s: string, at: Loc, st: State, fuel: nat)
    ensures Html(Text(s), at, st, fuel) == Ok(Rendered(st, None, None, HtmlEscape(s)))
  {
  }

  /** A tag without attributes around a rendered body. */
  lemma BareTagRenders(name: string, body: Widget, at: Loc, st: State, fuel: nat)
    requires Html(body, at, st, fuel).Ok?
    ensures Html(Tag(name, [], body), at, st, fuel) ==
      Ok(Wrap(name, "", Html(body, at, st, fuel).value))
  {
    assert RenderAttrs([], at, st) == Ok("");
  }

  /** An array of a string and a tag whose body is an array of one string:
      when neither string needs escaping, it renders as the first string
      followed by the tag's opening tag, the inner string and the closing
      tag, with empty `js` and `css` lists. */
  lemma HelloWorld(hello: string, name: string, world: string, at: Loc, st: State, fuel: nat)
    requires forall i :: 0 <= i < |hello| ==> !Special(hello[i])
    requires forall i :: 0 <= i < |world| ==> !Special(world[i])
    ensures Html(Seq([Text(hello), Tag(name, [], Seq([Text(world)]))]), at, st, fuel) ==
      Ok(Rendered(st, Some([]), Some([]), hello + "<" + name + ">" + world + "</" + name + ">"))
  {
    var none: seq<Dep> := [];
    var b := Tag(name, [], Seq([Text(world)]));
    var inner := "<" + name + ">" + world + "</" + name + ">";
    var items := [Text(hello), b];
    assert Html(Text(hello), at, st, fuel) == Ok(Rendered(st, None, None, hello)) by {
      HtmlEscapePlain(hello);
      TextRenders(hello, at, st, fuel);
    }
    assert HtmlSeq([b], at, st, fuel) == Ok(Rendered(st, Some(none), Some(none), inner)) by {
      PlainTagRenders(name, world, at, st, fuel);
      HtmlSeqSingle(b, at, st, fuel);
    }
    assert HtmlSeq(items, at, st, fuel) == Ok(Combine(Rendered(st, None, None, hello), Rendered(st, Some(none), Some(none), inner))) by {
      assert items[0] == Text(hello) && items[1..] == [b];
    }
    PrependElement(hello, "<", name, ">", world, "</");
    assert Html(Seq(items), at, st, fuel) == HtmlSeq(items, at, st, fuel);
  }

  lemma PrependElement(h: string, lt: string, name: string, gt: string, text: string, lts: string)
    ensures h + (lt + name + gt + text + lts + name + gt) == h + lt + name + gt + text + lts + name + gt
  {
  }

  /** A tag without attributes around text that needs no escaping. */
  lemma PlainTagRenders(name: string, world: string, at: Loc, st: State, fuel: nat)
    requires forall i :: 0 <= i < |world| ==> !Special(world[i])
    ensures Html(Tag(name, [], Seq([Text(world)])), at, st, fuel) ==
      Ok(Rendered(st, Some([]), Some([]), "<" + name + ">" + world + "</" + name + ">"))
  {
    var inner := Seq([Text(world)]);
    var none: seq<Dep> := [];
    var b := Rendered(st, Some(none), Some(none), world);
    assert Html(inner, at, st, fuel) == Ok(b) by {
      HtmlEscapePlain(world);
      TextRenders(world, at, st, fuel);
      HtmlSeqSingle(Text(world), at, st, fuel);
      SeqIsHtmlSeq([Text(world)], at, st, fuel);
    }
    BareTagRenders(name, inner, at, st, fuel);
    var open, close := "<" + name, "</" + name + ">";
    assert open + "" == open;
    assert Wrap(name, "", b).html == open + ">" + world + close;
  }

}
