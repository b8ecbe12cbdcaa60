/** The two escapers of the generator (chopsgen.js:243-264): `htmlEscape`,
    a chain of global regular-expression replacements, and `attrEscape`,
    which follows it with two replacements by a *string* pattern and so
    rewrites only the first `"` and the first `'`. */
module Escape {
  import opened Strings

  const EnDash: char := '\U{2013}'
  const EmDash: char := '\U{2014}'
  const Copyright: char := '\U{00A9}'

  /** `s.replace( /c/g, rep )`: every occurrence of `c` becomes `rep`. */
  function ReplaceAll(s: string, c: char, rep: string): (r: string)
    ensures c !in s ==> r == s
  {
    if |s| == 0 then "" else (if s[0] == c then rep else [s[0]]) + ReplaceAll(s[1..], c, rep)
  }

  /** `s.indexOf( c )`, with `|s|` standing for "not found". */
  function IndexOf(s: string, c: char): (i: nat)
    ensures i <= |s|
    ensures i < |s| ==> s[i] == c
    ensures forall j :: 0 <= j < i ==> s[j] != c
    ensures i == |s| <==> c !in s
  {
    if |s| == 0 then 0 else if s[0] == c then 0 else 1 + IndexOf(s[1..], c)
  }

  /** `s.replace( "c", rep )`: only the first occurrence of `c` becomes `rep`. */
  function ReplaceFirst(s: string, c: char, rep: string): string
  {
    var i := IndexOf(s, c);
    if i == |s| then s else s[..i] + rep + s[i + 1..]
  }

  /** `htmlEscape`: `&` first, then `<`, `>`, en dash, em dash, copyright. */
  function HtmlEscape(s: string): (r: string)
    ensures forall i :: 0 <= i < |r| ==> r[i] != '<' && r[i] != '>'
    ensures Unescape(r) == s
  {
    HtmlEscapeIsPerChar(s);
    EscapeEachNoAngles(s);
    UnescapeEscapeEach(s);
    ReplaceAll(ReplaceAll(ReplaceAll(ReplaceAll(ReplaceAll(ReplaceAll(s,
      '&', "&amp;"), '<', "&lt;"), '>', "&gt;"),
      EnDash, "&ndash;"), EmDash, "&mdash;"), Copyright, "&copy;")
  }

  /** The chain of replacements without the contract, for the proofs below. */
  function Chain(s: string): string
  {
    ReplaceAll(ReplaceAll(ReplaceAll(ReplaceAll(ReplaceAll(ReplaceAll(s,
      '&', "&amp;"), '<', "&lt;"), '>', "&gt;"),
      EnDash, "&ndash;"), EmDash, "&mdash;"), Copyright, "&copy;")
  }

  /** Reference definition: the entity for one character. */
  function EscapeChar(c: char): string
  {
    if c == '&' then "&amp;"
    else if c == '<' then "&lt;"
    else if c == '>' then "&gt;"
    else if c == EnDash then "&ndash;"
    else if c == EmDash then "&mdash;"
    else if c == Copyright then "&copy;"
    else [c]
  }

  /** Reference definition: every character escaped on its own. */
  function EscapeEach(s: string): string
  {
    if |s| == 0 then "" else EscapeChar(s[0]) + EscapeEach(s[1..])
  }

  /** Decodes the six entities `htmlEscape` produces and the two that
      `attrEscape` adds. */
  function Unescape(t: string): string
    decreases |t|
  {
    if |t| == 0 then ""
    else if StartsWith(t, "&amp;") then "&" + Unescape(t[5..])
    else if StartsWith(t, "&lt;") then "<" + Unescape(t[4..])
    else if StartsWith(t, "&gt;") then ">" + Unescape(t[4..])
    else if StartsWith(t, "&ndash;") then [EnDash] + Unescape(t[7..])
    else if StartsWith(t, "&mdash;") then [EmDash] + Unescape(t[7..])
    else if StartsWith(t, "&copy;") then [Copyright] + Unescape(t[6..])
    else if StartsWith(t, "&quot;") then "\"" + Unescape(t[6..])
    else if StartsWith(t, "&#39;") then "'" + Unescape(t[5..])
    else [t[0]] + Unescape(t[1..])
  }

  lemma {:induction false} ReplaceAllAppend(a: string, b: string, c: char, rep: string)
    ensures ReplaceAll(a + b, c, rep) == ReplaceAll(a, c, rep) + ReplaceAll(b, c, rep)
  {
    if |a| == 0 {
      assert a + b == b;
    } else {
      var head := if a[0] == c then rep else [a[0]];
      assert (a + b)[0] == a[0] && (a + b)[1..] == a[1..] + b;
      assert ReplaceAll(a + b, c, rep) == head + ReplaceAll(a[1..] + b, c, rep);
      ReplaceAllAppend(a[1..], b, c, rep);
      assert head + (ReplaceAll(a[1..], c, rep) + ReplaceAll(b, c, rep)) ==
        head + ReplaceAll(a[1..], c, rep) + ReplaceAll(b, c, rep);
    }
  }

  lemma ChainAppend(a: string, b: string)
    ensures Chain(a + b) == Chain(a) + Chain(b)
  {
    var r1a, r1b := ReplaceAll(a, '&', "&amp;"), ReplaceAll(b, '&', "&amp;");
    ReplaceAllAppend(a, b, '&', "&amp;");
    var r2a, r2b := ReplaceAll(r1a, '<', "&lt;"), ReplaceAll(r1b, '<', "&lt;");
    ReplaceAllAppend(r1a, r1b, '<', "&lt;");
    var r3a, r3b := ReplaceAll(r2a, '>', "&gt;"), ReplaceAll(r2b, '>', "&gt;");
    ReplaceAllAppend(r2a, r2b, '>', "&gt;");
    var r4a, r4b := ReplaceAll(r3a, EnDash, "&ndash;"), ReplaceAll(r3b, EnDash, "&ndash;");
    ReplaceAllAppend(r3a, r3b, EnDash, "&ndash;");
    var r5a, r5b := ReplaceAll(r4a, EmDash, "&mdash;"), ReplaceAll(r4b, EmDash, "&mdash;");
    ReplaceAllAppend(r4a, r4b, EmDash, "&mdash;");
    ReplaceAllAppend(r5a, r5b, Copyright, "&copy;");
  }

  /** Free of `<` and `>`, the characters that could open or close markup. */
  predicate AngleFree(s: string)
  {
    forall i :: 0 <= i < |s| ==> s[i] != '<' && s[i] != '>'
  }

  lemma AngleFreeAppend(a: string, b: string)
    requires AngleFree(a) && AngleFree(b)
    ensures AngleFree(a + b)
  {
    forall i | 0 <= i < |a + b|
      ensures (a + b)[i] != '<' && (a + b)[i] != '>'
    {
      if i >= |a| {
        assert (a + b)[i] == b[i - |a|];
      }
    }
  }

  /** Escaping distributes over concatenation. */
  lemma HtmlEscapeAppend(a: string, b: string)
    ensures HtmlEscape(a + b) == HtmlEscape(a) + HtmlEscape(b)
  {
    ChainAppend(a, b);
  }

  /** The six characters `htmlEscape` rewrites. */
  predicate Special(c: char)
  {
    c == '&' || c == '<' || c == '>' || c == EnDash || c == EmDash || c == Copyright
  }

  /** Text free of the six special characters is left alone. */
  lemma HtmlEscapePlain(s: string)
    requires forall i :: 0 <= i < |s| ==> !Special(s[i])
    ensures HtmlEscape(s) == s
  {
    assert '&' !in s && '<' !in s && '>' !in s && EnDash !in s && EmDash !in s && Copyright !in s;
  }

  /** One replacement step on a one-character string. */
  lemma ReplaceAllSingle(c: char, d: char, rep: string)
    ensures ReplaceAll([c], d, rep) == if c == d then rep else [c]
  {
    assert [c][1..] == [];
  }

  /** Characters an entity is spelled with; none of them is rewritten by the chain. */
  predicate EntityChar(c: char)
  {
    c == '&' || c == ';' || c == '#' || ('a' <= c <= 'z') || ('0' <= c <= '9')
  }

  predicate Spelled(e: string)
  {
    forall i :: 0 <= i < |e| ==> EntityChar(e[i])
  }

  lemma SpelledFixed(e: string, d: char, rep: string)
    requires Spelled(e) && !EntityChar(d)
    ensures ReplaceAll(e, d, rep) == e
  {
    assert d !in e;
  }

  /** The steps after the `&` step leave an entity alone. */
  lemma TailFixed(e: string, from: nat)
    requires Spelled(e) && 2 <= from <= 6
    ensures from <= 2 ==> ReplaceAll(e, '<', "&lt;") == e
    ensures from <= 3 ==> ReplaceAll(e, '>', "&gt;") == e
    ensures from <= 4 ==> ReplaceAll(e, EnDash, "&ndash;") == e
    ensures from <= 5 ==> ReplaceAll(e, EmDash, "&mdash;") == e
    ensures ReplaceAll(e, Copyright, "&copy;") == e
  {
    SpelledFixed(e, '<', "&lt;");
    SpelledFixed(e, '>', "&gt;");
    SpelledFixed(e, EnDash, "&ndash;");
    SpelledFixed(e, EmDash, "&mdash;");
    SpelledFixed(e, Copyright, "&copy;");
  }

  /** A character the chain rewrites becomes its entity, which the later
      steps leave alone; `from` is the first step after the rewrite. */
  lemma ChainSpecial(c: char, from: nat)
    requires 2 <= from <= 6
    requires c == (if from == 2 then '&' else if from == 3 then '<' else if from == 4 then '>'
                   else if from == 5 then EnDash else EmDash)
    ensures Chain([c]) == EscapeChar(c)
  {
    var e := EscapeChar(c);
    assert Spelled(e);
    TailFixed(e, from);
    ReplaceAllSingle(c, '&', "&amp;");
    if from > 2 {
      ReplaceAllSingle(c, '<', "&lt;");
    }
    if from > 3 {
      ReplaceAllSingle(c, '>', "&gt;");
    }
    if from > 4 {
      ReplaceAllSingle(c, EnDash, "&ndash;");
    }
    if from > 5 {
      ReplaceAllSingle(c, EmDash, "&mdash;");
    }
  }

  /** Every other character passes through the first five steps unchanged. */
  lemma ChainLast(c: char)
    requires c != '&' && c != '<' && c != '>' && c != EnDash && c != EmDash
    ensures Chain([c]) == ReplaceAll([c], Copyright, "&copy;")
  {
    ReplaceAllSingle(c, '&', "&amp;");
    ReplaceAllSingle(c, '<', "&lt;");
    ReplaceAllSingle(c, '>', "&gt;");
    ReplaceAllSingle(c, EnDash, "&ndash;");
    ReplaceAllSingle(c, EmDash, "&mdash;");
  }

  lemma ChainChar(c: char)
    ensures Chain([c]) == EscapeChar(c)
  {
    if c == '&' {
      ChainSpecial(c, 2);
    } else if c == '<' {
      ChainSpecial(c, 3);
    } else if c == '>' {
      ChainSpecial(c, 4);
    } else if c == EnDash {
      ChainSpecial(c, 5);
    } else if c == EmDash {
      ChainSpecial(c, 6);
    } else {
      ChainLast(c);
      ReplaceAllSingle(c, Copyright, "&copy;");
    }
  }

  /** The sequential regular-expression chain equals escaping each character
      on its own: because `&` goes first, no entity is escaped twice. */
  lemma {:induction false} HtmlEscapeIsPerChar(s: string)
    ensures Chain(s) == EscapeEach(s)
  {
    if |s| > 0 {
      assert s == [s[0]] + s[1..];
      ChainAppend([s[0]], s[1..]);
      ChainChar(s[0]);
      HtmlEscapeIsPerChar(s[1..]);
    }
  }

  lemma {:induction false} EscapeEachNoAngles(s: string)
    ensures forall i :: 0 <= i < |EscapeEach(s)| ==> EscapeEach(s)[i] != '<' && EscapeEach(s)[i] != '>'
  {
    if |s| > 0 {
      EscapeEachNoAngles(s[1..]);
    }
  }

  lemma NotStartsWith(t: string, p: string, i: nat)
    requires i < |t| && i < |p| && t[i] != p[i]
    ensures !StartsWith(t, p)
  {
    if |p| <= |t| {
      assert t[..|p|][i] == t[i];
    }
  }

  /** Text that does not start with '&' is copied one character at a time. */
  lemma UnescapePlain(t: string)
    requires |t| > 0 && t[0] != '&'
    ensures Unescape(t) == [t[0]] + Unescape(t[1..])
  {
    NotStartsWith(t, "&amp;", 0);
    NotStartsWith(t, "&lt;", 0);
    NotStartsWith(t, "&gt;", 0);
    NotStartsWith(t, "&ndash;", 0);
    NotStartsWith(t, "&mdash;", 0);
    NotStartsWith(t, "&copy;", 0);
    NotStartsWith(t, "&quot;", 0);
    NotStartsWith(t, "&#39;", 0);
  }

  lemma UnescapeEntity(c: char, rest: string)
    ensures Unescape(EscapeChar(c) + rest) == [c] + Unescape(rest)
  {
    var t := EscapeChar(c) + rest;
    if c == '&' {
      assert StartsWith(t, "&amp;") && t[5..] == rest;
    } else if c == '<' {
      assert t[..4] == "&lt;" && t[4..] == rest;
      NotStartsWith(t, "&amp;", 1);
    } else if c == '>' {
      assert t[..4] == "&gt;" && t[4..] == rest;
      NotStartsWith(t, "&amp;", 1);
      NotStartsWith(t, "&lt;", 1);
    } else if c == EnDash {
      assert t[..7] == "&ndash;" && t[7..] == rest;
      NotStartsWith(t, "&amp;", 1);
      NotStartsWith(t, "&lt;", 1);
      NotStartsWith(t, "&gt;", 1);
    } else if c == EmDash {
      assert t[..7] == "&mdash;" && t[7..] == rest;
      NotStartsWith(t, "&amp;", 1);
      NotStartsWith(t, "&lt;", 1);
      NotStartsWith(t, "&gt;", 1);
      NotStartsWith(t, "&ndash;", 1);
    } else if c == Copyright {
      assert t[..6] == "&copy;" && t[6..] == rest;
      NotStartsWith(t, "&amp;", 1);
      NotStartsWith(t, "&lt;", 1);
      NotStartsWith(t, "&gt;", 1);
      NotStartsWith(t, "&ndash;", 1);
      NotStartsWith(t, "&mdash;", 1);
    } else {
      assert t[0] == c && t[1..] == rest;
      UnescapePlain(t);
    }
  }

  lemma {:induction false} UnescapeEscapeEach(s: string)
    ensures Unescape(EscapeEach(s)) == s
  {
    if |s| > 0 {
      UnescapeEntity(s[0], EscapeEach(s[1..]));
      UnescapeEscapeEach(s[1..]);
    }
  }

  /** Distinct texts escape differently: `htmlEscape` loses nothing. */
  lemma HtmlEscapeInjective(a: string, b: string)
    requires HtmlEscape(a) == HtmlEscape(b)
    ensures a == b
  {
  }

  /** Number of occurrences of `c` in `s`. */
  function Count(s: string, c: char): nat
  {
    if |s| == 0 then 0 else (if s[0] == c then 1 else 0) + Count(s[1..], c)
  }

  lemma {:induction false} CountAppend(a: string, b: string, c: char)
    ensures Count(a + b, c) == Count(a, c) + Count(b, c)
  {
    if |a| == 0 {
      assert a + b == b;
    } else {
      assert (a + b)[1..] == a[1..] + b;
      CountAppend(a[1..], b, c);
    }
  }

  lemma {:induction false} CountPositiveIff(s: string, c: char)
    ensures Count(s, c) > 0 <==> c in s
  {
    if |s| > 0 {
      CountPositiveIff(s[1..], c);
      assert s == [s[0]] + s[1..];
    }
  }

  lemma EscapeCharQuotes(c: char, q: char)
    requires q == '"' || q == '\''
    ensures Count(EscapeChar(c), q) == if c == q then 1 else 0
  {
    if EscapeChar(c) != [c] {
      CountPositiveIff(EscapeChar(c), q);
    }
  }

  /** `htmlEscape` keeps every quote character. */
  lemma {:induction false} EscapeEachKeepsQuotes(s: string, q: char)
    requires q == '"' || q == '\''
    ensures Count(EscapeEach(s), q) == Count(s, q)
  {
    if |s| > 0 {
      CountAppend(EscapeChar(s[0]), EscapeEach(s[1..]), q);
      EscapeCharQuotes(s[0], q);
      EscapeEachKeepsQuotes(s[1..], q);
    }
  }

  /** Replacing the first `c` removes one `c` and adds the replacement's characters. */
  lemma ReplaceFirstCount(s: string, c: char, rep: string, d: char)
    ensures Count(ReplaceFirst(s, c, rep), d)
         == if c in s then Count(s, d) - (if d == c then 1 else 0) + Count(rep, d) else Count(s, d)
  {
    var i := IndexOf(s, c);
    if i < |s| {
      ReplaceFirstShape(s, c, rep);
      SpliceCount(s[..i], c, rep, s[i + 1..], d);
    }
  }

  lemma ReplaceFirstShape(s: string, c: char, rep: string)
    requires IndexOf(s, c) < |s|
    ensures var i := IndexOf(s, c);
      s == s[..i] + [c] + s[i + 1..] && ReplaceFirst(s, c, rep) == s[..i] + rep + s[i + 1..]
  {
    var i := IndexOf(s, c);
    assert s == s[..i] + [c] + s[i + 1..];
  }

  /** Counting across the replacement of one character by a string. */
  lemma SpliceCount(a: string, c: char, rep: string, b: string, d: char)
    ensures Count(a + rep + b, d) == Count(a + [c] + b, d) - (if d == c then 1 else 0) + Count(rep, d)
  {
    CountSplice(a, [c], b, d);
    CountSingle(c, d);
    CountSplice(a, rep, b, d);
  }

  lemma CountSplice(a: string, x: string, b: string, d: char)
    ensures Count(a + x + b, d) == Count(a, d) + Count(x, d) + Count(b, d)
  {
    CountAppend(a + x, b, d);
    CountAppend(a, x, d);
  }

  lemma CountSingle(c: char, d: char)
    ensures Count([c], d) == if c == d then 1 else 0
  {
    assert [c][1..] == [];
  }

  lemma ReplaceFirstAngleFree(s: string, c: char, rep: string)
    requires AngleFree(s) && AngleFree(rep)
    ensures AngleFree(ReplaceFirst(s, c, rep))
  {
    var i := IndexOf(s, c);
    if i < |s| {
      var a, b := s[..i], s[i + 1..];
      assert AngleFree(a) && AngleFree(b);
      AngleFreeAppend(a, rep);
      AngleFreeAppend(a + rep, b);
    }
  }

  /** `attrEscape`: `htmlEscape`, then the FIRST `"` and the FIRST `'` only,
      so every quote after the first of its kind survives. */
  function AttrEscape(s: string): (r: string)
    ensures AngleFree(r)
    ensures Count(r, '"') == if Count(s, '"') > 0 then Count(s, '"') - 1 else 0
    ensures Count(r, '\'') == if Count(s, '\'') > 0 then Count(s, '\'') - 1 else 0
    ensures Unescape(r) == s
  {
    AttrEscapeAngleFree(s);
    AttrEscapeDoubleQuotes(s);
    AttrEscapeSingleQuotes(s);
    AttrEscapeIsPerChar(s);
    UnescapeAttrEach(s, true, true);
    ReplaceFirst(ReplaceFirst(HtmlEscape(s), '"', "&quot;"), '\'', "&#39;")
  }

  /** `attrEscape` leaves no angle brackets. */
  lemma AttrEscapeAngleFree(s: string)
    ensures AngleFree(ReplaceFirst(ReplaceFirst(HtmlEscape(s), '"', "&quot;"), '\'', "&#39;"))
  {
    var h := HtmlEscape(s);
    var h1 := ReplaceFirst(h, '"', "&quot;");
    EntitiesAngleFree();
    ReplaceFirstAngleFree(h, '"', "&quot;");
    ReplaceFirstAngleFree(h1, '\'', "&#39;");
  }

  lemma EntitiesAngleFree()
    ensures AngleFree("&quot;") && AngleFree("&#39;")
  {
    var q, a := "&quot;", "&#39;";
    assert Spelled(q) && Spelled(a);
  }

  /** The two entities `attrEscape` writes hold no quote characters. */
  lemma EntitiesQuoteFree()
    ensures Count("&quot;", '"') == 0 && Count("&quot;", '\'') == 0
    ensures Count("&#39;", '"') == 0 && Count("&#39;", '\'') == 0
  {
    CountPositiveIff("&quot;", '"');
    CountPositiveIff("&quot;", '\'');
    CountPositiveIff("&#39;", '"');
    CountPositiveIff("&#39;", '\'');
  }

  lemma HtmlEscapeKeepsQuotes(s: string, q: char)
    requires q == '"' || q == '\''
    ensures Count(HtmlEscape(s), q) == Count(s, q)
  {
    HtmlEscapeIsPerChar(s);
    EscapeEachKeepsQuotes(s, q);
  }

  /** One `"` fewer, counting the rewrite of the first. */
  lemma AttrEscapeDoubleQuotes(s: string)
    ensures Count(ReplaceFirst(ReplaceFirst(HtmlEscape(s), '"', "&quot;"), '\'', "&#39;"), '"') ==
      (if Count(s, '"') > 0 then Count(s, '"') - 1 else 0)
  {
    var h := HtmlEscape(s);
    var h1 := ReplaceFirst(h, '"', "&quot;");
    HtmlEscapeKeepsQuotes(s, '"');
    EntitiesQuoteFree();
    ReplaceFirstCount(h, '"', "&quot;", '"');
    CountPositiveIff(h, '"');
    ReplaceFirstCount(h1, '\'', "&#39;", '"');
  }

  /** One `'` fewer, counting the rewrite of the first. */
  lemma AttrEscapeSingleQuotes(s: string)
    ensures Count(ReplaceFirst(ReplaceFirst(HtmlEscape(s), '"', "&quot;"), '\'', "&#39;"), '\'') ==
      (if Count(s, '\'') > 0 then Count(s, '\'') - 1 else 0)
  {
    var h := HtmlEscape(s);
    var h1 := ReplaceFirst(h, '"', "&quot;");
    HtmlEscapeKeepsQuotes(s, '\'');
    EntitiesQuoteFree();
    ReplaceFirstCount(h, '"', "&quot;", '\'');
    ReplaceFirstCount(h1, '\'', "&#39;", '\'');
    CountPositiveIff(h1, '\'');
  }

  /** Because only the first `"` is rewritten, an attribute value with two
      or more double quotes still holds a raw `"` after `attrEscape`. */
  lemma AttrEscapeLeavesLaterQuotes(s: string)
    requires Count(s, '"') >= 2
    ensures '"' in AttrEscape(s)
  {
    CountPositiveIff(AttrEscape(s), '"');
  }

  /** With at most one quote of each kind, `attrEscape` leaves no raw quote. */
  lemma AttrEscapeQuoteFree(s: string)
    requires Count(s, '"') <= 1 && Count(s, '\'') <= 1
    ensures '"' !in AttrEscape(s) && '\'' !in AttrEscape(s)
  {
    CountPositiveIff(AttrEscape(s), '"');
    CountPositiveIff(AttrEscape(s), '\'');
  }

  // ---- attrEscape, one character at a time ----------------------------------

  /** Reference definition of `attrEscape`: every character escaped on its
      own, except that the first `"` (while `dq` holds) is written `&quot;`
      and the first `'` (while `sq` holds) is written `&#39;`. */
  function AttrEach(s: string, dq: bool, sq: bool): string
  {
    if |s| == 0 then ""
    else if dq && s[0] == '"' then "&quot;" + AttrEach(s[1..], false, sq)
    else if sq && s[0] == '\'' then "&#39;" + AttrEach(s[1..], dq, false)
    else EscapeChar(s[0]) + AttrEach(s[1..], dq, sq)
  }

  /** The first-occurrence rewrites of `attrEscape` still to be applied. */
  function FirstQuotes(t: string, dq: bool, sq: bool): string
  {
    var t1 := if dq then ReplaceFirst(t, '"', "&quot;") else t;
    if sq then ReplaceFirst(t1, '\'', "&#39;") else t1
  }

  lemma {:induction false} IndexOfAfter(a: string, b: string, c: char)
    requires c !in a
    ensures IndexOf(a + b, c) == |a| + IndexOf(b, c)
    decreases |a|
  {
    if |a| == 0 {
      assert a + b == b;
    } else {
      assert (a + b)[0] == a[0] && (a + b)[1..] == a[1..] + b;
      assert a[0] in a;
      IndexOfAfter(a[1..], b, c);
    }
  }

  /** `replace` passes over a prefix without the character. */
  lemma ReplaceFirstAfter(a: string, b: string, c: char, rep: string)
    requires c !in a
    ensures ReplaceFirst(a + b, c, rep) == a + ReplaceFirst(b, c, rep)
  {
    IndexOfAfter(a, b, c);
    if IndexOf(b, c) < |b| {
      ReplaceFirstAfterHit(a, b, c, rep);
    }
  }

  lemma ReplaceFirstAfterHit(a: string, b: string, c: char, rep: string)
    requires IndexOf(b, c) < |b| && IndexOf(a + b, c) == |a| + IndexOf(b, c)
    ensures ReplaceFirst(a + b, c, rep) == a + ReplaceFirst(b, c, rep)
  {
    var j := IndexOf(b, c);
    ReplaceFirstAt(a + b, c, rep, |a| + j);
    ReplaceFirstAt(b, c, rep, j);
    SpliceAfter(a, b, rep, j);
  }

  /** `replace` where the first occurrence is at index `i`. */
  lemma ReplaceFirstAt(s: string, c: char, rep: string, i: nat)
    requires i == IndexOf(s, c) && i < |s|
    ensures ReplaceFirst(s, c, rep) == s[..i] + rep + s[i + 1..]
  {
  }

  lemma SpliceAfter(a: string, b: string, rep: string, j: nat)
    requires j < |b|
    ensures (a + b)[..|a| + j] + rep + (a + b)[|a| + j + 1..] == a + (b[..j] + rep + b[j + 1..])
  {
    var ab, i := a + b, |a| + j;
    assert ab[..i] == a + b[..j];
    assert ab[i + 1..] == b[j + 1..];
  }

  /** `replace` on a text that starts with the character. */
  lemma ReplaceFirstHere(c: char, b: string, rep: string)
    ensures ReplaceFirst([c] + b, c, rep) == rep + b
  {
    var s := [c] + b;
    assert s[0] == c;
    ReplaceFirstAt(s, c, rep, 0);
    assert s[1..] == b;
  }

  lemma EscapeCharQuoteFree(c: char, q: char)
    requires (q == '"' || q == '\'') && c != q
    ensures q !in EscapeChar(c)
  {
    EscapeCharQuotes(c, q);
    CountPositiveIff(EscapeChar(c), q);
  }

  /** The two first-occurrence rewrites applied to the per-character
      escape are the per-character reference. */
  lemma {:induction false} AttrEachIsFirstQuotes(s: string, dq: bool, sq: bool)
    ensures AttrEach(s, dq, sq) == FirstQuotes(EscapeEach(s), dq, sq)
    decreases |s|
  {
    if |s| > 0 {
      var c, t := s[0], s[1..];
      var et := EscapeEach(t);
      assert EscapeEach(s) == EscapeChar(c) + et;
      if dq && c == '"' {
        AttrEachIsFirstQuotes(t, false, sq);
        FirstQuotesDouble(et, sq);
      } else if sq && c == '\'' {
        AttrEachIsFirstQuotes(t, dq, false);
        FirstQuotesSingle(et, dq);
      } else {
        AttrEachIsFirstQuotes(t, dq, sq);
        if dq {
          EscapeCharQuoteFree(c, '"');
        }
        if sq {
          EscapeCharQuoteFree(c, '\'');
        }
        FirstQuotesPass(EscapeChar(c), et, dq, sq);
      }
    }
  }

  /** A leading `"` is the one the pending rewrite turns into `&quot;`. */
  lemma FirstQuotesDouble(et: string, sq: bool)
    ensures FirstQuotes("\"" + et, true, sq) == "&quot;" + FirstQuotes(et, false, sq)
  {
    ReplaceFirstHere('"', et, "&quot;");
    if sq {
      EntitiesQuoteFree();
      CountPositiveIff("&quot;", '\'');
      ReplaceFirstAfter("&quot;", et, '\'', "&#39;");
    }
  }

  /** A leading `'` is the one the pending rewrite turns into `&#39;`. */
  lemma FirstQuotesSingle(et: string, dq: bool)
    ensures FirstQuotes("'" + et, dq, true) == "&#39;" + FirstQuotes(et, dq, false)
  {
    var t1 := if dq then ReplaceFirst(et, '"', "&quot;") else et;
    if dq {
      ReplaceFirstAfter("'", et, '"', "&quot;");
    }
    ReplaceFirstHere('\'', t1, "&#39;");
  }

  /** The pending rewrites pass over text without the quotes they rewrite. */
  lemma FirstQuotesPass(e: string, et: string, dq: bool, sq: bool)
    requires (dq ==> '"' !in e) && (sq ==> '\'' !in e)
    ensures FirstQuotes(e + et, dq, sq) == e + FirstQuotes(et, dq, sq)
  {
    var t1 := if dq then ReplaceFirst(et, '"', "&quot;") else et;
    if dq {
      ReplaceFirstAfter(e, et, '"', "&quot;");
    }
    if sq {
      ReplaceFirstAfter(e, t1, '\'', "&#39;");
    }
  }

  /** `attrEscape` is the per-character reference, starting with both
      first-occurrence rewrites pending. */
  lemma AttrEscapeIsPerChar(s: string)
    ensures ReplaceFirst(ReplaceFirst(HtmlEscape(s), '"', "&quot;"), '\'', "&#39;") == AttrEach(s, true, true)
  {
    HtmlEscapeIsPerChar(s);
    AttrEachIsFirstQuotes(s, true, true);
  }

  /** The two entities `attrEscape` writes decode to their quotes. */
  lemma UnescapeQuoteEntities(rest: string)
    ensures Unescape("&quot;" + rest) == "\"" + Unescape(rest)
    ensures Unescape("&#39;" + rest) == "'" + Unescape(rest)
  {
    var t := "&quot;" + rest;
    assert t[..6] == "&quot;" && t[6..] == rest;
    NotStartsWith(t, "&amp;", 1);
    NotStartsWith(t, "&lt;", 1);
    NotStartsWith(t, "&gt;", 1);
    NotStartsWith(t, "&ndash;", 1);
    NotStartsWith(t, "&mdash;", 1);
    NotStartsWith(t, "&copy;", 1);
    var u := "&#39;" + rest;
    assert u[..5] == "&#39;" && u[5..] == rest;
    NotStartsWith(u, "&amp;", 1);
    NotStartsWith(u, "&lt;", 1);
    NotStartsWith(u, "&gt;", 1);
    NotStartsWith(u, "&ndash;", 1);
    NotStartsWith(u, "&mdash;", 1);
    NotStartsWith(u, "&copy;", 1);
    NotStartsWith(u, "&quot;", 1);
  }

  /** Unescaping undoes the per-character reference of `attrEscape`. */
  lemma {:induction false} UnescapeAttrEach(s: string, dq: bool, sq: bool)
    ensures Unescape(AttrEach(s, dq, sq)) == s
    decreases |s|
  {
    if |s| > 0 {
      var c, t := s[0], s[1..];
      assert [c] + t == s;
      if dq && c == '"' {
        var rest := AttrEach(t, false, sq);
        assert AttrEach(s, dq, sq) == "&quot;" + rest;
        assert Unescape(rest) == t by {
          UnescapeAttrEach(t, false, sq);
        }
        UnescapeQuoteEntities(rest);
      } else if sq && c == '\'' {
        var rest := AttrEach(t, dq, false);
        assert AttrEach(s, dq, sq) == "&#39;" + rest;
        assert Unescape(rest) == t by {
          UnescapeAttrEach(t, dq, false);
        }
        UnescapeQuoteEntities(rest);
      } else {
        var rest := AttrEach(t, dq, sq);
        assert AttrEach(s, dq, sq) == EscapeChar(c) + rest;
        assert Unescape(rest) == t by {
          UnescapeAttrEach(t, dq, sq);
        }
        UnescapeEntity(c, rest);
      }
    }
  }

  /** A prefix holding no quote that is still to be rewritten is escaped
      character by character. */
  lemma {:induction false} AttrEachSkips(p: string, t: string, dq: bool, sq: bool)
    requires (dq ==> '"' !in p) && (sq ==> '\'' !in p)
    ensures AttrEach(p + t, dq, sq) == EscapeEach(p) + AttrEach(t, dq, sq)
    decreases |p|
  {
    if |p| == 0 {
      assert p + t == t;
    } else {
      var c, p1 := p[0], p[1..];
      assert p == [c] + p1;
      assert (dq ==> '"' !in p1) && (sq ==> '\'' !in p1) && (dq ==> c != '"') && (sq ==> c != '\'');
      AttrEachSkips(p1, t, dq, sq);
      AttrEachPlainHead(c, p1 + t, dq, sq);
      ConsAppend(c, p1, t);
    }
  }

  lemma ConsAppend(c: char, a: string, b: string)
    ensures ([c] + a) + b == [c] + (a + b)
  {
  }

  lemma AttrEachPlainHead(c: char, u: string, dq: bool, sq: bool)
    requires (dq ==> c != '"') && (sq ==> c != '\'')
    ensures AttrEach([c] + u, dq, sq) == EscapeChar(c) + AttrEach(u, dq, sq)
  {
    assert ([c] + u)[0] == c && ([c] + u)[1..] == u;
  }


  /** In a text without `'`, `attrEscape` writes the first `"` as `&quot;`
      and escapes the text around it exactly as `htmlEscape` does. */
  lemma AttrEscapeFirstQuote(p: string, q: string)
    requires '"' !in p && '\'' !in p && '\'' !in q
    ensures AttrEscape(p + "\"" + q) == HtmlEscape(p) + "&quot;" + HtmlEscape(q)
  {
    var tail := "\"" + q;
    var s := p + tail;
    assert p + "\"" + q == s;
    assert AttrEscape(s) == AttrEach(s, true, true) by {
      AttrEscapeIsPerChar(s);
    }
    assert AttrEach(s, true, true) == EscapeEach(p) + AttrEach(tail, true, true) by {
      AttrEachSkips(p, tail, true, true);
    }
    assert AttrEach(tail, true, true) == "&quot;" + AttrEach(q, false, true) by {
      assert tail[0] == '"' && tail[1..] == q;
    }
    assert AttrEach(q, false, true) == EscapeEach(q) by {
      AttrEachSkips(q, "", false, true);
      assert q + "" == q && EscapeEach(q) + "" == EscapeEach(q);
    }
    assert HtmlEscape(p) == EscapeEach(p) by {
      HtmlEscapeIsPerChar(p);
    }
    assert HtmlEscape(q) == EscapeEach(q) by {
      HtmlEscapeIsPerChar(q);
    }
  }

}
