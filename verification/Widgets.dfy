/** The widget vocabulary of the renderer (chopsgen.js:437-742), the
    dependency descriptors widgets emit, pages, and the render state that is
    threaded through every render call. */
module Widgets {
  import opened Wrappers
  import opened Strings
  import opened Paths

  /** A CSS or JS dependency.  `External` and `Embedded` carry the optional
      `media` of a CSS dependency (a JS dependency ignores it); `Ie` is the
      `{ type: "ie", on, use }` conditional comment; `IncludeOnce` is a
      `JsIncludeOnce` bundle, named by an explicit identity.  `Undefined` is
      the `undefined` that `concat` adds to a list when a NiceWidget's
      widgetHtml generator hands back a rendering without `js` or `css`. */
  datatype Dep =
    | External(url: string, media: Option<string>)
    | Embedded(code: string, media: Option<string>)
    | Ie(on: string, use: Dep)
    | IncludeOnce(id: nat)
    | Undefined

  /** An attribute value of an HtmlTag: a path (rendered with `from`) or
      anything else, rendered by `manualWidgetToText`. */
  datatype AttrValue = PathValue(loc: Loc) | TextValue(w: Widget)

  datatype Attr = Attr(name: string, value: AttrValue)

  /** The generators a NiceWidget keeps, one per keyword argument of
      `my.widget`; each manual one holds its already parsed manual widget. */
  datatype JsGen = IncludeOnceJs(bundle: nat) | ManualJs(code: Widget)
  datatype CssGen = ManualCss(code: Widget)
  datatype HtmlGen = ManualHtml(code: Widget) | WidgetHtml(body: Widget)

  /** Strings, arrays and the widget classes of the source. */
  datatype Widget =
    | Text(s: string)                                 // a JavaScript string
    | Seq(items: seq<Widget>)                         // an array
    | Tag(name: string, attrs: seq<Attr>, body: Widget) // HtmlTag
    | Block(inner: Widget)                            // BlockWidget
    | NameNavLink(target: Loc)
    | NavLink(target: Loc, content: Widget)
    | RawHtml(html: string)                           // HtmlRawWidget
    | Deps(js: seq<Dep>, css: seq<Dep>)               // DepsWidget
    | Nice(jsGens: seq<JsGen>, cssGens: seq<CssGen>, htmlGens: seq<HtmlGen>) // NiceWidget
    | Token                                           // WidgetToken

  datatype Page = Page(permalink: Path, usesAbsolute: bool, is404: bool,
                       name: Widget, title: Widget, icon: Loc, body: Widget)

  /** The render state: the NiceWidget counter, the "token" stack (top at
      index 0) and the read-only page registry keyed by `permalink.abs()`. */
  datatype State = State(counter: nat, tokens: seq<string>, pages: map<string, Page>)

  // ---- HtmlTag validation --------------------------------------------------

  /** `[-:a-z]` */
  predicate NameStartChar(c: char)
  {
    c == '-' || c == ':' || ('a' <= c <= 'z')
  }

  /** `[-:a-z01-9]`, which is `[-:a-z0-9]` */
  predicate NameChar(c: char)
  {
    NameStartChar(c) || ('0' <= c <= '9')
  }

  /** `/^[-:a-z][-:a-z01-9]*$/` */
  predicate TagNameOk(name: string)
  {
    |name| > 0 && NameStartChar(name[0]) && forall i :: 1 <= i < |name| ==> NameChar(name[i])
  }

  /** `/^[-:a-z]*$/` (the empty name passes) */
  predicate AttrNameOk(name: string)
  {
    forall i :: 0 <= i < |name| ==> NameStartChar(name[i])
  }

  function AllNameChars(s: string): (b: bool)
    ensures b <==> forall i :: 0 <= i < |s| ==> NameChar(s[i])
  {
    |s| == 0 || (NameChar(s[0]) && AllNameChars(s[1..]))
  }

  function AllStartChars(s: string): (b: bool)
    ensures b <==> AttrNameOk(s)
  {
    |s| == 0 || (NameStartChar(s[0]) && AllStartChars(s[1..]))
  }

  function NameUsedLater(attrs: seq<Attr>, name: string): (b: bool)
    ensures b <==> exists j :: 0 <= j < |attrs| && attrs[j].name == name
  {
    |attrs| > 0 && (attrs[0].name == name || NameUsedLater(attrs[1..], name))
  }

  predicate DistinctNames(attrs: seq<Attr>)
  {
    forall i, j :: 0 <= i < j < |attrs| ==> attrs[i].name != attrs[j].name
  }

  /** The attribute loop of the HtmlTag constructor: for each attribute in
      turn, its name is checked and then compared with every later one. */
  function CheckAttrs(attrs: seq<Attr>): (r: Result<()>)
    ensures r.Ok? <==> (forall i :: 0 <= i < |attrs| ==> AttrNameOk(attrs[i].name)) && DistinctNames(attrs)
    ensures r.Err? ==> r.error == BadAttrName || r.error == DuplicateAttr
  {
    if |attrs| == 0 then Ok(())
    else if !AllStartChars(attrs[0].name) then Err(BadAttrName)
    else if NameUsedLater(attrs[1..], attrs[0].name) then
      assert attrs[1..][0..][0] == attrs[1];
      Err(DuplicateAttr)
    else
      var rest := CheckAttrs(attrs[1..]);
      assert forall j :: 1 <= j < |attrs| ==> attrs[j] == attrs[1..][j - 1];
      rest
  }

  /** `new HtmlTag( name, attrs, body )`. */
  function MakeTag(name: string, attrs: seq<Attr>, body: Widget): (r: Result<Widget>)
    ensures r.Ok? <==> TagNameOk(name) && (forall i :: 0 <= i < |attrs| ==> AttrNameOk(attrs[i].name)) && DistinctNames(attrs)
    ensures r.Ok? ==> r.value == Tag(name, attrs, body)
    ensures !TagNameOk(name) ==> r == Err(BadTagName)
  {
    if |name| == 0 || !NameStartChar(name[0]) || !AllNameChars(name[1..]) then
      assert !TagNameOk(name) by {
        if |name| > 0 && NameStartChar(name[0]) {
          var k :| 0 <= k < |name[1..]| && !NameChar(name[1..][k]);
          assert name[k + 1] == name[1..][k];
        }
      }
      Err(BadTagName)
    else
      assert forall i :: 1 <= i < |name| ==> name[i] == name[1..][i - 1];
      var _ :- CheckAttrs(attrs);
      Ok(Tag(name, attrs, body))
  }

  // ---- render state --------------------------------------------------------

  /** `pushState( state, "token", tok )`. */
  function Push(st: State, tok: string): (r: State)
    ensures |r.tokens| == |st.tokens| + 1 && r.tokens[0] == tok && r.tokens[1..] == st.tokens
    ensures r.counter == st.counter && r.pages == st.pages
  {
    st.(tokens := [tok] + st.tokens)
  }

  /** `unpushState( state, "token" )`: throws on an empty stack. */
  function Unpush(st: State): (r: Result<State>)
    ensures r.Ok? <==> |st.tokens| > 0
    ensures r.Ok? ==> r.value.tokens == st.tokens[1..] && r.value.counter == st.counter && r.value.pages == st.pages
    ensures r.Err? ==> r.error == StateUnderflow
  {
    if |st.tokens| == 0 then Err(StateUnderflow) else Ok(st.(tokens := st.tokens[1..]))
  }

  /** Unpushing undoes pushing. */
  lemma UnpushPush(st: State, tok: string)
    ensures Unpush(Push(st, tok)) == Ok(st)
  {
    assert Push(st, tok).tokens[1..] == st.tokens;
  }

  /** The token of the NiceWidget rendered with counter `c`. */
  function NiceToken(c: nat): string
  {
    "gs" + NatToString(c) + "gs"
  }

  /** Different counters give different tokens. */
  lemma NiceTokenDistinct(m: nat, n: nat)
    requires m != n
    ensures NiceToken(m) != NiceToken(n)
  {
    ParseNatToString(m);
    ParseNatToString(n);
    var a, b := NatToString(m), NatToString(n);
    assert a != b;
    assert NiceToken(m)[2..|NiceToken(m)| - 2] == a;
    assert NiceToken(n)[2..|NiceToken(n)| - 2] == b;
  }

  /** The render state a page starts from: `{ counter: 0, pages: pages }`. */
  function InitialState(pages: map<string, Page>): State
  {
    State(0, [], pages)
  }
}
