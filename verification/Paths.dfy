/** The path algebra of the site (chopsgen.js:308-435): a `Path` is a list
    of directory segments and a file part, a `MaskedPath` pairs the page's
    real location with the fixed root the site is deployed under.  Only a
    plain `Path` answers `abs`, `plus`, `from`, `familyDirs` and
    `linkWouldBeRedundant`; a `MaskedPath` is only ever an argument. */
module Paths {
  import opened Wrappers
  import opened Strings

  datatype Path = Path(dirs: seq<string>, file: string)

  /** What `toPath` may hand back besides `null`.  The real path of a
      MaskedPath is itself the result of `toPath`, so it may be `null`. */
  datatype Loc = Plain(path: Path) | Masked(realPath: Option<Path>, basePath: Path)

  /** The segment test of the Path constructor, `/^\.?\.?$|\?|#|^$/`. */
  predicate BadSegment(d: string)
  {
    d == "" || d == "." || d == ".." || '?' in d || '#' in d
  }

  predicate ValidPath(p: Path)
  {
    forall i :: 0 <= i < |p.dirs| ==> !BadSegment(p.dirs[i])
  }

  function FirstBad(dirs: seq<string>): (i: nat)
    ensures i <= |dirs|
    ensures i < |dirs| ==> BadSegment(dirs[i])
    ensures forall j :: 0 <= j < i ==> !BadSegment(dirs[j])
  {
    if |dirs| == 0 then 0 else if BadSegment(dirs[0]) then 0 else 1 + FirstBad(dirs[1..])
  }

  /** `new Path( dirs, file )`: throws unless every segment is acceptable. */
  function MakePath(dirs: seq<string>, file: string): (r: Result<Path>)
    ensures r.Ok? <==> forall i :: 0 <= i < |dirs| ==> !BadSegment(dirs[i])
    ensures r.Ok? ==> r.value.dirs == dirs && r.value.file == file && ValidPath(r.value)
    ensures r.Err? ==> r.error == InvalidPath
  {
    if FirstBad(dirs) < |dirs| then Err(InvalidPath) else Ok(Path(dirs, file))
  }

  /** `"/" + dir` for every directory, joined. */
  function DirsAbs(dirs: seq<string>): string
  {
    if |dirs| == 0 then "" else "/" + dirs[0] + DirsAbs(dirs[1..])
  }

  /** `Path.prototype.abs`. */
  function Abs(p: Path): string
  {
    DirsAbs(p.dirs) + "/" + p.file
  }

  /** `dir + "/"` for every directory, joined: the shape of a relative link. */
  function DirsSuffix(dirs: seq<string>): string
  {
    if |dirs| == 0 then "" else dirs[0] + "/" + DirsSuffix(dirs[1..])
  }

  /** `arr.join( "/" )`. */
  function JoinSlash(dirs: seq<string>): string
  {
    if |dirs| == 0 then "" else if |dirs| == 1 then dirs[0] else dirs[0] + "/" + JoinSlash(dirs[1..])
  }

  /** `n` copies of "../". */
  function Ups(n: nat): string
  {
    if n == 0 then "" else "../" + Ups(n - 1)
  }

  /** `relDirs( from, to )`, clause for clause. */
  function RelDirs(from: seq<string>, to: seq<string>): string
    decreases |from| + |to|
  {
    if |to| == 0 then Ups(|from|)
    else if |from| == 0 then JoinSlash(to) + "/"
    else if from[0] == to[0] then RelDirs(from[1..], to[1..])
    else RelDirs(from, []) + RelDirs([], to)
  }

  /** `Path.prototype.plus`: only a directory (file "") takes a child, and the
      child must be a plain path. */
  function Plus(p: Path, child: Loc): (r: Result<Path>)
    ensures r.Ok? ==> p.file == "" && child.Plain?
    ensures r.Ok? ==> r.value == Path(p.dirs + child.path.dirs, child.path.file)
    ensures ValidPath(p) && child.Plain? && ValidPath(child.path) ==> (r.Ok? <==> p.file == "")
    ensures p.file != "" ==> r == Err(NotADirectory)
  {
    if p.file != "" then Err(NotADirectory)
    else if child.Masked? then Err(NotAPath)
    else MakePath(p.dirs + child.path.dirs, child.path.file)
  }

  /** `Path.prototype.from`: a link to `p` from a page at `base`.  Against a
      MaskedPath the link is host-relative, `basePath.plus( p ).abs()`. */
  function From(p: Path, base: Loc): (r: Result<string>)
    ensures base.Plain? ==> r.Ok?
    ensures base.Masked? && r.Ok? ==> |r.value| > 0 && r.value[0] == '/'
    ensures base.Masked? && ValidPath(p) && ValidPath(base.basePath) ==> (r.Ok? <==> base.basePath.file == "")
  {
    match base
    case Plain(b) => Ok(RelDirs(b.dirs, p.dirs) + p.file)
    case Masked(_, b) =>
      var q :- Plus(b, Plain(p));
      Ok(Abs(q))
  }

  /** `Path.prototype.linkWouldBeRedundant`: structural equality with a
      plain base, or with the real path of a masked one. */
  function LinkWouldBeRedundant(p: Path, base: Loc): bool
    decreases if base.Plain? then 0 else 1
  {
    match base
    case Plain(q) => p.dirs == q.dirs && p.file == q.file
    case Masked(r, _) => r.Some? && LinkWouldBeRedundant(p, Plain(r.value))
  }

  /** `Path.prototype.familyDirs`: every directory prefix, root first. */
  function FamilyDirs(p: Path): (r: seq<Path>)
    ensures |r| == |p.dirs| + 1
    ensures r[0] == Path([], "") && r[|p.dirs|] == Path(p.dirs, "")
    ensures forall i :: 0 <= i < |r| ==> r[i].file == "" && |r[i].dirs| == i
    ensures ValidPath(p) ==> forall i :: 0 <= i < |r| ==> ValidPath(r[i])
    ensures forall i :: 0 <= i < |r| ==> Plus(r[i], Plain(Path(p.dirs[i..], p.file))) == MakePath(p.dirs, p.file)
  {
    var r := seq(|p.dirs| + 1, i requires 0 <= i <= |p.dirs| => Path(p.dirs[..i], ""));
    assert forall i :: 0 <= i < |r| ==> r[i].dirs + p.dirs[i..] == p.dirs;
    assert r[|p.dirs|].dirs == p.dirs;
    r
  }

  // ---- operations whose receiver may be a MaskedPath -------------------

  /** `abs` on whatever `toPath` returned. */
  function LocAbs(l: Loc): (r: Result<string>)
    ensures r.Ok? <==> l.Plain?
    ensures l.Masked? ==> r == Err(MaskedPathMisuse)
  {
    match l
    case Plain(p) => Ok(Abs(p))
    case Masked(_, _) => Err(MaskedPathMisuse)
  }

  /** `plus` on whatever `toPath` returned. */
  function LocPlus(l: Loc, child: Loc): (r: Result<Path>)
    ensures r.Ok? ==> l.Plain? && l.path.file == ""
    ensures l.Masked? ==> r == Err(MaskedPathMisuse)
  {
    match l
    case Plain(p) => Plus(p, child)
    case Masked(_, _) => Err(MaskedPathMisuse)
  }

  /** `from` on whatever `toPath` returned. */
  function LocFrom(l: Loc, base: Loc): (r: Result<string>)
    ensures l.Plain? && base.Plain? ==> r.Ok?
    ensures l.Masked? ==> r == Err(MaskedPathMisuse)
  {
    match l
    case Plain(p) => From(p, base)
    case Masked(_, _) => Err(MaskedPathMisuse)
  }

  /** `linkWouldBeRedundant` on whatever `toPath` returned. */
  function LocRedundant(l: Loc, base: Loc): (r: Result<bool>)
    ensures r.Ok? <==> l.Plain?
    ensures r.Ok? && base.Plain? ==> (r.value <==> l.path == base.path)
  {
    match l
    case Plain(p) => Ok(LinkWouldBeRedundant(p, base))
    case Masked(_, _) => Err(MaskedPathMisuse)
  }

  /** `familyDirs` on whatever `toPath` returned. */
  function LocFamilyDirs(l: Loc): (r: Result<seq<Path>>)
    ensures r.Ok? <==> l.Plain?
    ensures r.Ok? ==> |r.value| == |l.path.dirs| + 1
  {
    match l
    case Plain(p) => Ok(FamilyDirs(p))
    case Masked(_, _) => Err(MaskedPathMisuse)
  }

  // ---- toPath ----------------------------------------------------------

  /** `[^/?#]`: a character a directory segment may hold. */
  predicate SegChar(c: char)
  {
    c != '/' && c != '?' && c != '#'
  }

  predicate QueryChar(c: char)
  {
    c == '?' || c == '#'
  }

  /** The characters a JavaScript `.` does not match. */
  predicate LineTerminator(c: char)
  {
    c == '\n' || c == '\r' || c == '\U{2028}' || c == '\U{2029}'
  }

  predicate NoLineTerminator(s: string)
  {
    forall i :: 0 <= i < |s| ==> !LineTerminator(s[i])
  }

  /** `[^/#?]*(?:[#?].*)?`: the file part of every form `toPath` accepts. */
  predicate FilePart(f: string)
    decreases |f|
  {
    |f| == 0
    || (QueryChar(f[0]) && NoLineTerminator(f[1..]))
    || (SegChar(f[0]) && FilePart(f[1..]))
  }

  /** `[^/?#]+`: one directory segment. */
  predicate Segment(d: string)
  {
    |d| > 0 && forall j :: 0 <= j < |d| ==> SegChar(d[j])
  }

  predicate Segments(ds: seq<string>)
  {
    forall i :: 0 <= i < |ds| ==> Segment(ds[i])
  }

  /** Length of the longest prefix of segment characters. */
  function SegmentLen(s: string): (n: nat)
    ensures n <= |s|
    ensures forall j :: 0 <= j < n ==> SegChar(s[j])
    ensures n < |s| ==> !SegChar(s[n])
  {
    if |s| == 0 || !SegChar(s[0]) then 0 else 1 + SegmentLen(s[1..])
  }

  /** Matches `(?:[^/?#]+/)*` followed by a file part and returns the
      segments and the file.  The four regular expressions of `toPath` are
      this grammar with and without a leading "/". */
  function SplitDirs(s: string): Option<(seq<string>, string)>
    decreases |s|
  {
    var n := SegmentLen(s);
    if 0 < n < |s| && s[n] == '/' then
      match SplitDirs(s[n + 1..])
      case None => None
      case Some(r) => Some(([s[..n]] + r.0, r.1))
    else if FilePart(s) then Some(([], s))
    else None
  }

  /** `my.toPath( x, opt_base )` for a string `x`: an absolute form first,
      then, given a plain base, a relative form appended to the base's
      directories.  `Ok(None)` is the source's `null`; a ".." or "."
      segment reaches the Path constructor and throws. */
  function ToPath(x: string, base: Option<Loc>): (r: Result<Option<Path>>)
    ensures r.Ok? && r.value.Some? ==> ValidPath(r.value.value)
    ensures r.Err? ==> r.error == InvalidPath
    ensures base.None? && r.Ok? && r.value.Some? ==> Abs(r.value.value) == x
  {
    if |x| > 0 && x[0] == '/' && SplitDirs(x[1..]).Some? then
      var parts := SplitDirs(x[1..]).value;
      AbsoluteParse(x);
      var p :- MakePath(parts.0, parts.1);
      Ok(Some(p))
    else if base.None? || base.value.Masked? then Ok(None)
    else
      match SplitDirs(x)
      case None => Ok(None)
      case Some(parts) =>
        var p :- MakePath(base.value.path.dirs + parts.0, parts.1);
        Ok(Some(p))
  }

  // ---- lemmas ------------------------------------------------------------

  lemma {:induction false} AbsShapeDirs(dirs: seq<string>)
    ensures DirsAbs(dirs) + "/" == "/" + DirsSuffix(dirs)
  {
    if |dirs| > 0 {
      AbsShapeDirs(dirs[1..]);
      calc {
        DirsAbs(dirs) + "/";
        "/" + dirs[0] + (DirsAbs(dirs[1..]) + "/");
        "/" + dirs[0] + ("/" + DirsSuffix(dirs[1..]));
        "/" + DirsSuffix(dirs);
      }
    }
  }

  /** `abs` is "/", then every directory followed by "/", then the file. */
  lemma AbsShape(p: Path)
    ensures Abs(p) == "/" + DirsSuffix(p.dirs) + p.file
  {
    AbsShapeDirs(p.dirs);
  }

  /** An absolute form splits into the directories and file it spells. */
  lemma AbsoluteParse(x: string)
    requires |x| > 0 && x[0] == '/' && SplitDirs(x[1..]).Some?
    ensures var parts := SplitDirs(x[1..]).value; Abs(Path(parts.0, parts.1)) == x
  {
    var parts := SplitDirs(x[1..]).value;
    SplitDirsSound(x[1..]);
    AbsOfSpelling(x, parts.0, parts.1);
  }

  lemma AbsOfSpelling(x: string, dirs: seq<string>, file: string)
    requires |x| > 0 && x[0] == '/' && x[1..] == DirsSuffix(dirs) + file
    ensures Abs(Path(dirs, file)) == x
  {
    AbsShape(Path(dirs, file));
    var suffix := DirsSuffix(dirs);
    assert x == "/" + x[1..];
    assert "/" + (suffix + file) == "/" + suffix + file;
  }

  lemma {:induction false} JoinThenSlash(dirs: seq<string>)
    requires |dirs| > 0
    ensures JoinSlash(dirs) + "/" == DirsSuffix(dirs)
  {
    if |dirs| > 1 {
      JoinThenSlash(dirs[1..]);
    }
  }

  lemma {:induction false} DirsSuffixAppend(a: seq<string>, b: seq<string>)
    ensures DirsSuffix(a + b) == DirsSuffix(a) + DirsSuffix(b)
  {
    if |a| == 0 {
      assert a + b == b;
    } else {
      assert (a + b)[1..] == a[1..] + b;
      DirsSuffixAppend(a[1..], b);
    }
  }

  lemma {:induction false} SegmentLenOf(d: string, rest: string)
    requires Segment(d) && |rest| > 0 && !SegChar(rest[0])
    ensures SegmentLen(d + rest) == |d|
  {
    if |d| > 1 {
      assert (d + rest)[1..] == d[1..] + rest;
      SegmentLenOf(d[1..], rest);
    } else {
      assert (d + rest)[1..] == rest;
    }
  }

  /** Inside a file part the segment characters stop at a '?', a '#', or the end. */
  lemma {:induction false} FilePartStop(f: string)
    requires FilePart(f)
    ensures SegmentLen(f) == |f| || QueryChar(f[SegmentLen(f)])
  {
    if |f| > 0 && SegChar(f[0]) {
      FilePartStop(f[1..]);
    }
  }

  /** One segment and its "/" in front of what the rest splits into. */
  lemma SplitDirsStep(s: string, n: nat, ds: seq<string>, f: string)
    requires 0 < n < |s| && s[n] == '/' && forall j :: 0 <= j < n ==> SegChar(s[j])
    requires s[n + 1..] == DirsSuffix(ds) + f && Segments(ds)
    ensures s == DirsSuffix([s[..n]] + ds) + f && Segments([s[..n]] + ds)
  {
    var d := s[..n];
    var all := [d] + ds;
    assert all[0] == d && all[1..] == ds;
    assert s == d + "/" + s[n + 1..];
    assert Segment(d);
    assert forall i :: 1 <= i < |all| ==> all[i] == ds[i - 1];
  }

  /** What `SplitDirs` accepts is segments, each followed by "/", then a file part. */
  lemma {:induction false} SplitDirsSound(s: string)
    requires SplitDirs(s).Some?
    ensures var r := SplitDirs(s).value;
      s == DirsSuffix(r.0) + r.1 && Segments(r.0) && FilePart(r.1)
    decreases |s|
  {
    var n := SegmentLen(s);
    if 0 < n < |s| && s[n] == '/' {
      SplitDirsSound(s[n + 1..]);
      var r := SplitDirs(s[n + 1..]).value;
      SplitDirsStep(s, n, r.0, r.1);
    }
  }

  /** Segments followed by "/" and then a file part split back into exactly
      those segments and that file. */
  lemma {:induction false} SplitDirsComplete(ds: seq<string>, f: string)
    requires Segments(ds) && FilePart(f)
    ensures SplitDirs(DirsSuffix(ds) + f) == Some((ds, f))
  {
    var s := DirsSuffix(ds) + f;
    if |ds| == 0 {
      assert s == f;
      var n := SegmentLen(f);
      FilePartStop(f);
    } else {
      var d := ds[0];
      assert s == d + ("/" + (DirsSuffix(ds[1..]) + f));
      SegmentLenOf(d, "/" + (DirsSuffix(ds[1..]) + f));
      assert s[|d|] == '/';
      assert s[..|d|] == d;
      assert s[|d| + 1..] == DirsSuffix(ds[1..]) + f;
      SplitDirsComplete(ds[1..], f);
      assert [d] + ds[1..] == ds;
    }
  }

  /** A path whose segments hold no "/" and whose file is a file part. */
  predicate Printable(p: Path)
  {
    ValidPath(p) && (forall i :: 0 <= i < |p.dirs| ==> '/' !in p.dirs[i]) && FilePart(p.file)
  }

  lemma PrintableSegments(p: Path)
    requires Printable(p)
    ensures Segments(p.dirs)
  {
    forall i | 0 <= i < |p.dirs|
      ensures Segment(p.dirs[i])
    {
      var d := p.dirs[i];
      assert !BadSegment(d);
      assert forall j :: 0 <= j < |d| ==> d[j] in d;
    }
  }

  /** Parsing what `abs` printed gives the path back. */
  lemma ToPathAbs(p: Path)
    requires Printable(p)
    ensures ToPath(Abs(p), None) == Ok(Some(p))
  {
    AbsShape(p);
    PrintableSegments(p);
    var x := Abs(p);
    assert x[1..] == DirsSuffix(p.dirs) + p.file;
    SplitDirsComplete(p.dirs, p.file);
  }

  /** `abs` is one-to-one on printable paths. */
  lemma AbsInjective(p: Path, q: Path)
    requires Printable(p) && Printable(q) && Abs(p) == Abs(q)
    ensures p == q
  {
    ToPathAbs(p);
    ToPathAbs(q);
  }

  /** The longest common prefix of two directory lists has length `k`. */
  predicate CommonPrefix(a: seq<string>, b: seq<string>, k: nat)
  {
    k <= |a| && k <= |b| && a[..k] == b[..k] && (k == |a| || k == |b| || a[k] != b[k])
  }

  lemma PrefixAgree(a: seq<string>, b: seq<string>, k: nat)
    requires k <= |a| && k <= |b| && a[..k] == b[..k]
    ensures forall i :: 0 <= i < k ==> a[i] == b[i]
  {
    forall i | 0 <= i < k
      ensures a[i] == b[i]
    {
      assert a[..k][i] == a[i] && b[..k][i] == b[i];
    }
  }

  /** `relDirs` drops the longest common prefix, climbs once per remaining
      base directory and descends into every remaining target directory. */
  lemma {:induction false} RelDirsSpec(from: seq<string>, to: seq<string>, k: nat)
    requires CommonPrefix(from, to, k)
    ensures RelDirs(from, to) == Ups(|from| - k) + DirsSuffix(to[k..])
    decreases |from| + |to|
  {
    if |to| == 0 {
    } else if |from| == 0 {
      JoinThenSlash(to);
    } else if from[0] == to[0] {
      assert k > 0;
      assert from[1..][..k - 1] == from[..k][1..];
      assert to[1..][..k - 1] == to[..k][1..];
      RelDirsSpec(from[1..], to[1..], k - 1);
      assert to[1..][k - 1..] == to[k..];
    } else {
      PrefixAgree(from, to, k);
      assert k == 0;
      JoinThenSlash(to);
      assert Ups(|from|) + "" == Ups(|from|);
    }
  }

  /** With a plain base, `from` emits one "../" per base directory beyond
      the common prefix, then each remaining directory of the target with a
      "/", then the file. */
  lemma FromPlain(p: Path, b: Path, k: nat)
    requires CommonPrefix(b.dirs, p.dirs, k)
    ensures From(p, Plain(b)) == Ok(Ups(|b.dirs| - k) + DirsSuffix(p.dirs[k..]) + p.file)
  {
    RelDirsSpec(b.dirs, p.dirs, k);
  }

  /** Linking to the page one is on yields just the file name. */
  lemma FromSameDirs(p: Path, b: Path)
    requires p.dirs == b.dirs
    ensures From(p, Plain(b)) == Ok(p.file)
  {
    assert CommonPrefix(b.dirs, p.dirs, |p.dirs|);
    FromPlain(p, b, |p.dirs|);
    assert p.dirs[|p.dirs|..] == [];
    assert Ups(0) == "" && DirsSuffix([]) == "";
    assert Ups(|b.dirs| - |p.dirs|) + DirsSuffix(p.dirs[|p.dirs|..]) + p.file == p.file;
  }

  /** Against a masked base, `from` is the host-relative address under the
      deployment root. */
  lemma FromMasked(p: Path, r: Option<Path>, b: Path)
    requires ValidPath(p) && ValidPath(b) && b.file == ""
    ensures From(p, Masked(r, b)) == Ok(Abs(Path(b.dirs + p.dirs, p.file)))
  {
  }

  /** A string that does not start with "/" is read relative to a plain base. */
  lemma ToPathRelative(x: string, b: Path, ds: seq<string>, f: string)
    requires |x| == 0 || x[0] != '/'
    requires SplitDirs(x) == Some((ds, f))
    ensures ToPath(x, Some(Plain(b))) == if MakePath(b.dirs + ds, f).Ok? then Ok(Some(Path(b.dirs + ds, f))) else Err(InvalidPath)
  {
  }

  /** A downward link neither starts with "/" nor fails to split. */
  lemma DownwardLinkShape(rest: seq<string>, file: string)
    requires Segments(rest) && FilePart(file)
    ensures var x := DirsSuffix(rest) + file; |x| == 0 || x[0] != '/'
  {
    var x := DirsSuffix(rest) + file;
    if |rest| > 0 {
      assert x == rest[0] + ("/" + (DirsSuffix(rest[1..]) + file));
      assert Segment(rest[0]);
      assert x[0] == rest[0][0];
    } else {
      assert x == file;
    }
  }

  /** Resolving a downward link against its base gives the target back. */
  lemma ResolveFrom(p: Path, b: Path)
    requires Printable(p) && |b.dirs| <= |p.dirs| && b.dirs == p.dirs[..|b.dirs|]
    ensures From(p, Plain(b)).Ok?
    ensures ToPath(From(p, Plain(b)).value, Some(Plain(b))) == Ok(Some(p))
  {
    var k := |b.dirs|;
    assert CommonPrefix(b.dirs, p.dirs, k);
    FromPlain(p, b, k);
    var rest := p.dirs[k..];
    var x := DirsSuffix(rest) + p.file;
    assert Ups(0) == "";
    assert From(p, Plain(b)).value == x;
    PrintableSegments(p);
    assert Segments(rest);
    SplitDirsComplete(rest, p.file);
    DownwardLinkShape(rest, p.file);
    assert b.dirs + rest == p.dirs;
    ToPathRelative(x, b, rest, p.file);
  }

  /** `n` copies of the segment "..". */
  function Dots(n: nat): (ds: seq<string>)
    ensures |ds| == n && forall i :: 0 <= i < n ==> ds[i] == ".."
  {
    if n == 0 then [] else [".."] + Dots(n - 1)
  }

  /** The climbing prefix of a relative link spells `n` ".." segments. */
  lemma {:induction false} UpsAreDots(n: nat)
    ensures Ups(n) == DirsSuffix(Dots(n))
  {
    if n > 0 {
      UpsAreDots(n - 1);
      assert Dots(n)[1..] == Dots(n - 1);
      assert ".." + "/" + DirsSuffix(Dots(n - 1)) == "../" + Ups(n - 1);
    }
  }

  /** A relative link that climbs `n > 0` times splits into `n` ".."
      segments, then the segments it descends into, then the file. */
  lemma ClimbLink(n: nat, rest: seq<string>, f: string)
    requires n > 0 && Segments(rest) && FilePart(f)
    ensures var x := Ups(n) + DirsSuffix(rest) + f;
      x[0] == '.' && SplitDirs(x) == Some((Dots(n) + rest, f))
  {
    UpsAreDots(n);
    DirsSuffixAppend(Dots(n), rest);
    var ds := Dots(n) + rest;
    assert Segments(ds) by {
      assert Segment("..");
      forall i | 0 <= i < |ds|
        ensures Segment(ds[i])
      {
        if i >= n {
          assert ds[i] == rest[i - n];
        }
      }
    }
    SplitDirsComplete(ds, f);
    assert Ups(n) == "../" + Ups(n - 1);
  }

  /** A link that climbs out of its base does not resolve back: `toPath`
      appends its ".." segments to the base's directories and the Path
      constructor rejects them. */
  lemma ResolveClimbFails(p: Path, b: Path, k: nat)
    requires Printable(p) && CommonPrefix(b.dirs, p.dirs, k) && k < |b.dirs|
    ensures From(p, Plain(b)).Ok?
    ensures ToPath(From(p, Plain(b)).value, Some(Plain(b))) == Err(InvalidPath)
  {
    var n := |b.dirs| - k;
    var rest := p.dirs[k..];
    FromPlain(p, b, k);
    PrintableSegments(p);
    assert Segments(rest) by {
      assert forall i :: 0 <= i < |rest| ==> rest[i] == p.dirs[k + i];
    }
    ClimbLink(n, rest, p.file);
    var ds := Dots(n) + rest;
    var x := Ups(n) + DirsSuffix(rest) + p.file;
    assert BadSegment((b.dirs + ds)[|b.dirs|]);
    ToPathRelative(x, b, ds, p.file);
  }

  /** A self link is suppressed exactly when the target equals the base. */
  lemma RedundantIffEqual(p: Path, q: Path)
    requires Printable(p) && Printable(q)
    ensures LinkWouldBeRedundant(p, Plain(q)) <==> Abs(p) == Abs(q)
  {
    if Abs(p) == Abs(q) {
      AbsInjective(p, q);
    }
  }

  /** A masked base defers to its real path and never to its root. */
  lemma RedundantMasked(p: Path, r: Option<Path>, b: Path)
    ensures LinkWouldBeRedundant(p, Masked(r, b)) <==> r == Some(p)
  {
  }

  /** Every operation with a MaskedPath receiver throws. */
  lemma MaskedReceiverThrows(l: Loc, other: Loc)
    requires l.Masked?
    ensures LocAbs(l).Err? && LocPlus(l, other).Err? && LocFrom(l, other).Err?
    ensures LocRedundant(l, other).Err? && LocFamilyDirs(l).Err?
  {
  }
}
