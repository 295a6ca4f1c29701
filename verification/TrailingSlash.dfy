/**
 Trailing-slash redirects (endpoint.go, static.go): which paths are accepted, which other form a
 policy sends them to, and the relative Location that has to resolve to it. Text is a sequence of
 bytes, one char each.
 */
module TrailingSlash {
  import opened Wrappers
  import Pathname

  predicate HasPrefix(s: string, p: string) {
    |p| <= |s| && s[..|p|] == p
  }

  predicate EndsInSlash(s: string) {
    s != "" && s[|s| - 1] == '/'
  }

  /** strings.TrimSuffix(s, "/"). */
  function TrimSlash(s: string): string {
    if EndsInSlash(s) then s[..|s| - 1] else s
  }

  // ---------------------------------------------------------------- paths as segments

  /** A segment that stands for itself. */
  predicate Good(seg: string) {
    seg != "" && '/' !in seg && seg != "." && seg != ".."
  }

  predicate AllGood(segs: seq<string>) {
    forall i :: 0 <= i < |segs| ==> Good(segs[i])
  }

  /** The path with these segments, a slash before each. */
  function Path(segs: seq<string>): string {
    if segs == [] then "" else Path(segs[..|segs| - 1]) + "/" + segs[|segs| - 1]
  }

  /** strings.Split(s, "/"). */
  function Split(s: string): (parts: seq<string>)
    ensures |parts| > 0
  {
    if s == "" then [""]
    else
      var before := Split(s[..|s| - 1]);
      if s[|s| - 1] == '/' then before + [""]
      else before[..|before| - 1] + [before[|before| - 1] + [s[|s| - 1]]]
  }

  /** What path.Clean makes of the parts of a rooted path. */
  function Kept(parts: seq<string>): seq<string> {
    if parts == [] then []
    else
      var before, part := Kept(parts[..|parts| - 1]), parts[|parts| - 1];
      if part == "" || part == "." then before
      else if part == ".." then (if before == [] then [] else before[..|before| - 1])
      else before + [part]
  }

  /** path.Clean, of a path that begins with a slash. */
  function Clean(p: string): string {
    var segs := Kept(Split(p));
    if segs == [] then "/" else Path(segs)
  }

  /** fs.ValidPath, of what is left of a clean path without its first slash. */
  predicate ValidPath(name: string) {
    Pathname.ValidUTF8(name) && AllGood(Split(name))
  }

  /** normalizePath: a path is accepted as it is or not at all. */
  function NormalizePath(p: string): Option<string> {
    if p == "" then Some("/")
    else if !HasPrefix(p, "/") then None
    else
      var cleaned := Clean(p);
      if (if EndsInSlash(p) && p != "/" then cleaned + "/" else cleaned) != p then None
      else if cleaned != "/" && !ValidPath(cleaned[1..]) then None
      else Some(p)
  }

  lemma {:induction false} SplitHasNoSlash(s: string)
    ensures forall i :: 0 <= i < |Split(s)| ==> '/' !in Split(s)[i]
  {
    if s != "" {
      SplitHasNoSlash(s[..|s| - 1]);
    }
  }

  lemma {:induction false} KeptAreGood(parts: seq<string>)
    requires forall i :: 0 <= i < |parts| ==> '/' !in parts[i]
    ensures AllGood(Kept(parts))
  {
    if parts != [] {
      KeptAreGood(parts[..|parts| - 1]);
    }
  }

  /** A path that is accepted is the root, two slashes, or good segments with or without a last slash. */
  ghost predicate Accepted(q: string) {
    q == "/" || q == "//" || exists segs :: Spells(segs, q)
  }

  ghost predicate Spells(segs: seq<string>, q: string) {
    segs != [] && AllGood(segs) && (q == Path(segs) || q == Path(segs) + "/")
  }

  lemma NormalizedIsAccepted(p: string)
    requires NormalizePath(p).Some?
    ensures Accepted(NormalizePath(p).value)
  {
    if p != "" {
      var segs := Kept(Split(p));
      SplitHasNoSlash(p);
      KeptAreGood(Split(p));
      if segs == [] {
        assert Clean(p) == "/";
        assert "/" + "/" == "//";
      } else {
        assert Spells(segs, p);
      }
    }
  }

  lemma {:induction false} SplitAppends(s: string, seg: string)
    requires '/' !in seg
    ensures Split(s + "/" + seg) == Split(s) + [seg]
  {
    var all := s + "/" + seg;
    if seg == "" {
      assert all[..|all| - 1] == s && all[|all| - 1] == '/';
    } else {
      var n := |seg| - 1;
      assert seg[n] in seg && forall i :: 0 <= i < n ==> seg[..n][i] in seg;
      SplitAppends(s, seg[..n]);
      assert all[..|all| - 1] == s + "/" + seg[..n] && all[|all| - 1] == seg[n];
      assert seg == seg[..n] + [seg[n]];
    }
  }

  lemma {:induction false} SplitOfPath(segs: seq<string>)
    requires AllGood(segs)
    ensures Split(Path(segs)) == [""] + segs
  {
    if segs != [] {
      var n := |segs| - 1;
      SplitOfPath(segs[..n]);
      SplitAppends(Path(segs[..n]), segs[n]);
      assert [""] + segs[..n] + [segs[n]] == [""] + segs;
    }
  }

  lemma {:induction false} KeptOfGood(segs: seq<string>)
    requires AllGood(segs)
    ensures Kept([""] + segs) == segs
  {
    if segs == [] {
      assert ([""] + segs)[..0] == [];
    } else {
      var n := |segs| - 1;
      KeptOfGood(segs[..n]);
      assert ([""] + segs)[..n + 1] == [""] + segs[..n];
      assert segs == segs[..n] + [segs[n]];
    }
  }

  lemma {:induction false} SplitAfterSlash(s: string)
    requires s != "" && s[0] == '/'
    ensures Split(s) == [""] + Split(s[1..])
  {
    var n := |s| - 1;
    if n == 0 {
      assert s[..0] == "" && s[1..] == "";
    } else {
      SplitAfterSlash(s[..n]);
      var tail := s[1..];
      assert s[..n][1..] == tail[..n - 1] && tail[n - 1] == s[n];
      PutsFirst(Split(tail[..n - 1]), s[n]);
    }
  }

  /** One more part in front changes nothing at the end. */
  lemma PutsFirst(before: seq<string>, c: char)
    requires |before| > 0
    ensures
      var all := [""] + before;
      && all + [""] == [""] + (before + [""])
      && all[..|all| - 1] + [all[|all| - 1] + [c]] == [""] + (before[..|before| - 1] + [before[|before| - 1] + [c]])
  {
  }

  lemma KeptDropsEmpty(parts: seq<string>)
    ensures Kept(parts + [""]) == Kept(parts)
  {
    assert (parts + [""])[..|parts|] == parts;
  }

  lemma CleanOfPath(segs: seq<string>)
    requires AllGood(segs) && segs != []
    ensures Clean(Path(segs)) == Path(segs) && Clean(Path(segs) + "/") == Path(segs)
  {
    hide Split, Kept, Path, AllGood;
    SplitOfPath(segs);
    KeptOfGood(segs);
    SplitAppends(Path(segs), "");
    Empty(Path(segs) + "/");
    KeptDropsEmpty([""] + segs);
  }

  lemma TailOfPath(segs: seq<string>)
    requires AllGood(segs) && segs != []
    ensures Path(segs)[0] == '/' && !EndsInSlash(Path(segs)) && Split(Path(segs)[1..]) == segs
  {
    PathEnds(segs);
    hide Split, Path, AllGood;
    SplitOfPath(segs);
    SplitAfterSlash(Path(segs));
    assert segs == ([""] + segs)[1..] && Split(Path(segs)[1..]) == ([""] + Split(Path(segs)[1..]))[1..];
  }

  /** Good segments of well-formed UTF-8 are accepted, with a last slash or without. */
  lemma GoodIsAccepted(p: string, segs: seq<string>)
    requires Spells(segs, p)
    ensures NormalizePath(p) == if Pathname.ValidUTF8(Path(segs)[1..]) then Some(p) else None
  {
    CleanOfPath(segs);
    TailOfPath(segs);
    TrimsBack(Path(segs));
    assert |Path(segs)| > 1 by {
      assert Path(segs) != "/";
    }
    hide Clean, Split, Path, Pathname.ValidUTF8;
    assert p[0] == '/' && HasPrefix(p, "/") by { assert p[..1] == "/"; }
    assert EndsInSlash(p) <==> p == Path(segs) + "/";
  }

  /** Which paths are accepted: the root, two slashes, and good segments of well-formed UTF-8. */
  lemma AcceptedExactly(p: string)
    ensures NormalizePath(p).Some? <==>
      p == "" || p == "/" || p == "//" || exists segs :: Spells(segs, p) && Pathname.ValidUTF8(Path(segs)[1..])
    ensures NormalizePath(p).Some? ==> NormalizePath(p).value == if p == "" then "/" else p
  {
    RootIsClean();
    if NormalizePath(p).Some? && p != "" {
      NormalizedIsAccepted(p);
    }
    hide NormalizePath, Path, Pathname.ValidUTF8;
    forall segs | Spells(segs, p)
      ensures NormalizePath(p) == if Pathname.ValidUTF8(Path(segs)[1..]) then Some(p) else None
    {
      GoodIsAccepted(p, segs);
    }
  }

  lemma RootIsClean()
    ensures NormalizePath("") == Some("/") && NormalizePath("/") == Some("/") && NormalizePath("//") == Some("//")
  {
    assert "/"[..0] == "" && "//"[..1] == "/";
    assert Split("/") == ["", ""] && Split("//") == ["", "", ""];
    assert ["", ""][..1] == [""] && [""][..0] == [] && ["", "", ""][..2] == ["", ""];
    assert Kept([""]) == [] && Kept(["", ""]) == [] && Kept(["", "", ""]) == [];
    assert "/" + "/" == "//";
  }

  // ---------------------------------------------------------------- the code

  /** invertTrailingSlash. */
  function Invert(p: string): Option<string> {
    if p == "/" || p == "" then None
    else if EndsInSlash(p) then Some(TrimSlash(p))
    else Some(p + "/")
  }

  /** normalizeRoutePath. */
  function NormalizeRoutePath(p: string, base: string, policy: string): string {
    if p == base || p == base + "/" then base + "/"
    else if p == "/" || policy == "ignore" then p
    else if policy == "always" then if EndsInSlash(p) then p else p + "/"
    else TrimSlash(p)
  }

  function LastSlash(s: string): (i: int)
    ensures -1 <= i < |s|
    ensures i >= 0 ==> s[i] == '/' && '/' !in s[i + 1..]
    ensures i < 0 ==> '/' !in s
  {
    if s == "" then -1
    else if s[|s| - 1] == '/' then |s| - 1
    else
      var i := LastSlash(s[..|s| - 1]);
      assert s == s[..|s| - 1] + [s[|s| - 1]];
      assert i >= 0 ==> s[i + 1..] == s[..|s| - 1][i + 1..] + [s[|s| - 1]];
      i
  }

  function AfterLastSlash(s: string): string {
    s[LastSlash(s) + 1..]
  }

  /** relativePathname. */
  function RelativePathname(from: string, to: string): string {
    var segment := AfterLastSlash(TrimSlash(to));
    if EndsInSlash(from) then "../" + segment else "./" + segment + "/"
  }

  /** routeNormalization. */
  function RouteNormalization(p: string, base: string, policy: string, rawQuery: string): Option<string> {
    var normalized := NormalizeRoutePath(p, base, policy);
    if normalized == p then None
    else Some(RelativePathname(p, normalized) + if rawQuery != "" then "?" + rawQuery else "")
  }

  // ---------------------------------------------------------------- RFC 3986, section 5.2

  /** Where a reference's path ends: at a question mark or a number sign. */
  function PathEnd(ref: string): (k: nat)
    ensures k <= |ref|
    ensures forall i :: 0 <= i < k ==> ref[i] != '?' && ref[i] != '#'
    ensures k < |ref| ==> ref[k] == '?' || ref[k] == '#'
  {
    if ref == "" || ref[0] == '?' || ref[0] == '#' then 0 else 1 + PathEnd(ref[1..])
  }

  /** Section 5.2.3, for a base path that is not empty and a reference that is relative. */
  function Merge(base: string, refPath: string): string {
    base[..LastSlash(base) + 1] + refPath
  }

  /** The first segment, with the slash before it and not the one after. */
  function FirstSegment(s: string): (k: nat)
    requires s != ""
    ensures 0 < k <= |s|
    ensures forall i :: 0 < i < k ==> s[i] != '/'
    ensures k < |s| ==> s[k] == '/'
  {
    if |s| == 1 || s[1] == '/' then 1 else 1 + FirstSegment(s[1..])
  }

  /** All before the last slash. */
  function DropLast(s: string): (r: string)
    ensures |r| <= |s|
  {
    s[..if LastSlash(s) < 0 then 0 else LastSlash(s)]
  }

  /** Section 5.2.4, remove_dot_segments, with its input and its output buffer. */
  function RemoveDots(input: string, output: string): string
    decreases |input|
  {
    if input == "" then output
    else if HasPrefix(input, "../") then RemoveDots(input[3..], output)
    else if HasPrefix(input, "./") then RemoveDots(input[2..], output)
    else if HasPrefix(input, "/./") then RemoveDots(input[2..], output)
    else if input == "/." then RemoveDots("/", output)
    else if HasPrefix(input, "/../") then RemoveDots(input[3..], DropLast(output))
    else if input == "/.." then RemoveDots("/", DropLast(output))
    else if input == "." || input == ".." then output
    else
      var k := FirstSegment(input);
      RemoveDots(input[k..], output + input[..k])
  }

  /** The path a relative Location leads to from a path. */
  function Resolve(base: string, location: string): string {
    RemoveDots(Merge(base, location[..PathEnd(location)]), "")
  }

  // ---------------------------------------------------------------- resolving past good segments

  lemma Assoc(a: string, b: string, c: string)
    ensures a + b + c == a + (b + c)
  {
  }

  lemma FirstSegmentIs(s: string, k: nat)
    requires 0 < k <= |s| && forall i :: 0 < i < k ==> s[i] != '/'
    requires k < |s| ==> s[k] == '/'
    ensures FirstSegment(s) == k
  {
  }

  /** The last case of remove_dot_segments: a segment moves to the output. */
  lemma SegmentMoves(input: string, output: string, k: nat)
    requires input != "" && FirstSegment(input) == k
    requires !HasPrefix(input, "../") && !HasPrefix(input, "./") && !HasPrefix(input, "/./") && input != "/."
    requires !HasPrefix(input, "/../") && input != "/.." && input != "." && input != ".."
    ensures RemoveDots(input, output) == RemoveDots(input[k..], output + input[..k])
  {
  }

  lemma GoodSegmentPasses(seg: string, rest: string, output: string)
    requires Good(seg) && (rest == "" || rest[0] == '/')
    ensures RemoveDots("/" + seg + rest, output) == RemoveDots(rest, output + "/" + seg)
  {
    hide RemoveDots;
    var input := "/" + seg + rest;
    assert forall i :: 0 < i < |seg| + 1 ==> input[i] == seg[i - 1] && seg[i - 1] in seg;
    assert |rest| > 0 ==> input[|seg| + 1] == '/';
    FirstSegmentIs(input, |seg| + 1);
    NotADot(seg, rest);
    hide FirstSegment, HasPrefix, Good;
    SegmentMoves(input, output, |seg| + 1);
    assert input[..|seg| + 1] == "/" + seg && input[|seg| + 1..] == rest;
    Assoc(output, "/", seg);
  }

  lemma NotADot(seg: string, rest: string)
    requires Good(seg) && (rest == "" || rest[0] == '/')
    ensures
      var input := "/" + seg + rest;
      && !HasPrefix(input, "../") && !HasPrefix(input, "./") && !HasPrefix(input, "/./") && input != "/."
      && !HasPrefix(input, "/../") && input != "/.." && input != "." && input != ".."
  {
    var input := "/" + seg + rest;
    assert input[0] == '/';
    assert forall i :: 0 <= i < |seg| ==> input[i + 1] == seg[i] && seg[i] in seg;
    assert |rest| > 0 ==> input[|seg| + 1] == '/';
    var c1 := input[1];
    var c2 := if |input| > 2 then input[2] else ' ';
    var c3 := if |input| > 3 then input[3] else ' ';
    assert |seg| > 1 ==> c2 == seg[1] && c2 != '/';
    assert |seg| > 2 ==> c3 == seg[2] && c3 != '/';
    PrefixChars(input, "../");
    PrefixChars(input, "./");
    PrefixChars(input, "/./");
    PrefixChars(input, "/../");
    assert HasPrefix(input, "/./") ==> c1 == '.' && c2 == '/';
    assert HasPrefix(input, "/../") ==> c1 == '.' && c2 == '.' && c3 == '/';
    assert |seg| == 1 && seg[0] == '.' ==> seg == ".";
    assert |seg| == 2 && seg[0] == '.' && seg[1] == '.' ==> seg == "..";
  }

  lemma PrefixChars(s: string, p: string)
    ensures HasPrefix(s, p) ==> forall i :: 0 <= i < |p| ==> s[i] == p[i]
  {
  }

  // ---------------------------------------------------------------- where a redirect leads

  lemma {:induction false} PathPasses(segs: seq<string>, rest: string, output: string)
    requires AllGood(segs) && (rest == "" || rest[0] == '/')
    ensures RemoveDots(Path(segs) + rest, output) == RemoveDots(rest, output + Path(segs))
  {
    if segs == [] {
      assert "" + rest == rest && output + "" == output;
    } else {
      var n := |segs| - 1;
      var last := "/" + segs[n];
      PathPasses(segs[..n], last + rest, output);
      GoodSegmentPasses(segs[n], rest, output + Path(segs[..n]));
      Assoc(Path(segs[..n]), last, rest);
      Assoc(Path(segs[..n]), "/", segs[n]);
      Assoc(output, Path(segs[..n]), last);
      Assoc(output + Path(segs[..n]), "/", segs[n]);
      hide RemoveDots, Path, AllGood, Good;
    }
  }

  lemma LastSlashIs(s: string, k: nat)
    requires k < |s| && s[k] == '/' && '/' !in s[k + 1..]
    ensures LastSlash(s) == k
  {
    var i := LastSlash(s);
    assert forall j :: k < j < |s| ==> s[j] == s[k + 1..][j - k - 1];
    assert forall j :: i < j < |s| ==> s[j] == s[i + 1..][j - i - 1];
  }

  /** A path of good segments ends in its last one. */
  lemma PathEnds(segs: seq<string>)
    requires AllGood(segs) && segs != []
    ensures
      var n := |segs| - 1;
      var p := Path(segs);
      && p == Path(segs[..n]) + "/" + segs[n] && !EndsInSlash(p) && p[0] == '/'
      && LastSlash(p) == |Path(segs[..n])| && AfterLastSlash(p) == segs[n] && DropLast(p) == Path(segs[..n])
  {
    var n := |segs| - 1;
    var p := Path(segs);
    var k := |Path(segs[..n])|;
    assert p[k] == '/' && p[k + 1..] == segs[n];
    assert p[|p| - 1] == segs[n][|segs[n]| - 1] && segs[n][|segs[n]| - 1] in segs[n];
    LastSlashIs(p, k);
    BeginsWithSlash(segs);
  }

  lemma {:induction false} BeginsWithSlash(segs: seq<string>)
    requires segs != []
    ensures Path(segs) != "" && Path(segs)[0] == '/'
  {
    if |segs| > 1 {
      BeginsWithSlash(segs[..|segs| - 1]);
    }
  }

  lemma DotStep(text: string, output: string)
    ensures RemoveDots("/./" + text, output) == RemoveDots("/" + text, output)
  {
    var input := "/./" + text;
    assert input[..3] == "/./" && input[2..] == "/" + text;
  }

  lemma UpStep(text: string, output: string)
    ensures RemoveDots("/../" + text, output) == RemoveDots("/" + text, DropLast(output))
  {
    var input := "/../" + text;
    assert input[..4] == "/../" && input[3..] == "/" + text;
    assert input[0] == '/' && input[2] == '.';
    PrefixChars(input, "../");
    PrefixChars(input, "./");
    PrefixChars(input, "/./");
  }

  lemma Spelled(text: string)
    ensures "/" + ("./" + text) == "/./" + text && "/" + ("../" + text) == "/../" + text
  {
  }

  /** From a path without a last slash, the same segment again with one. */
  lemma AddingResolves(segs: seq<string>, text: string)
    requires AllGood(segs) && segs != []
    ensures RemoveDots(Merge(Path(segs), "./" + text), "") == RemoveDots("/" + text, Path(segs[..|segs| - 1]))
  {
    var before := Path(segs[..|segs| - 1]);
    PathEnds(segs);
    hide RemoveDots, Path, LastSlash, DropLast;
    MergesAfter(Path(segs), before, segs[|segs| - 1], "./" + text);
    PathPasses(segs[..|segs| - 1], "/./" + text, "");
    DotStep(text, before);
    Empty(before);
    Spelled(text);
  }

  /** Merging with a path whose last slash is after `before`. */
  lemma MergesAfter(p: string, before: string, last: string, ref: string)
    requires p == before + "/" + last && LastSlash(p) == |before|
    ensures Merge(p, ref) == before + ("/" + ref)
  {
    assert p[..|before| + 1] == before + "/";
  }

  lemma Empty(s: string)
    ensures "" + s == s && s + "" == s
  {
  }

  /** From a path with a last slash, up out of it and into the same segment. */
  lemma RemovingResolves(segs: seq<string>, text: string)
    requires AllGood(segs) && segs != []
    ensures RemoveDots(Merge(Path(segs) + "/", "../" + text), "") == RemoveDots("/" + text, Path(segs[..|segs| - 1]))
  {
    var p := Path(segs);
    PathEnds(segs);
    LastSlashIs(p + "/", |p|);
    hide RemoveDots, Path, LastSlash, DropLast;
    Empty(p + "/");
    MergesAfter(p + "/", p, "", "../" + text);
    PathPasses(segs, "/../" + text, "");
    UpStep(text, p);
    Empty(p);
    Spelled(text);
  }

  lemma SlashEnds(output: string)
    ensures RemoveDots("/", output) == output + "/"
  {
    assert "/"[1..] == "" && "/"[..1] == "/";
  }

  /** Where a cut-off segment leads is shorter than where the whole one would. */
  lemma {:induction false} RemovingDotsShortens(input: string, output: string)
    ensures |RemoveDots(input, output)| <= |input| + |output|
    decreases |input|
  {
    if input == "" {
    } else if HasPrefix(input, "../") {
      RemovingDotsShortens(input[3..], output);
    } else if HasPrefix(input, "./") {
      RemovingDotsShortens(input[2..], output);
    } else if HasPrefix(input, "/./") {
      RemovingDotsShortens(input[2..], output);
    } else if input == "/." {
      RemovingDotsShortens("/", output);
    } else if HasPrefix(input, "/../") {
      RemovingDotsShortens(input[3..], DropLast(output));
    } else if input == "/.." {
      RemovingDotsShortens("/", DropLast(output));
    } else if input == "." || input == ".." {
    } else {
      RemovingDotsShortens(input[FirstSegment(input)..], output + input[..FirstSegment(input)]);
    }
  }

  /** Text with nothing that ends a reference's path. */
  predicate Free(s: string) {
    '?' !in s && '#' !in s
  }

  lemma PathEndIs(ref: string, k: nat)
    requires k <= |ref| && forall i :: 0 <= i < k ==> ref[i] != '?' && ref[i] != '#'
    requires k < |ref| ==> ref[k] == '?' || ref[k] == '#'
    ensures PathEnd(ref) == k
  {
  }

  lemma EndsLater(a: string, b: string)
    requires Free(a)
    ensures PathEnd(a + b) == |a| + PathEnd(b)
    ensures (a + b)[..|a| + PathEnd(b)] == a + b[..PathEnd(b)]
  {
    var s, k := a + b, |a| + PathEnd(b);
    forall i | 0 <= i < k ensures s[i] != '?' && s[i] != '#' {
      assert s[i] == if i < |a| then a[i] else b[i - |a|];
      assert i < |a| ==> s[i] in a;
    }
    assert k < |s| ==> s[k] == b[PathEnd(b)];
    PathEndIs(s, k);
  }

  lemma EndsWithin(a: string, b: string)
    requires !Free(a)
    ensures PathEnd(a) < |a| && PathEnd(a + b) == PathEnd(a)
    ensures (a + b)[..PathEnd(a)] == a[..PathEnd(a)]
  {
    var s, k := a + b, PathEnd(a);
    forall i | 0 <= i < k ensures s[i] != '?' && s[i] != '#' {
      assert s[i] == a[i];
    }
    assert s[k] == a[k];
    PathEndIs(s, k);
  }

  lemma EndsAtOnce(query: string)
    requires query == "" || query[0] == '?'
    ensures PathEnd(query) == 0
  {
  }

  /** A reference's path, where only the segment and what follows it could end it. */
  lemma PathOfLocation(before: string, segment: string, after: string, query: string)
    requires Free(before) && Free(after) && (query == "" || query[0] == '?')
    ensures
      var location := before + segment + after + query;
      location[..PathEnd(location)] ==
      if Free(segment) then before + segment + after else before + segment[..PathEnd(segment)]
    ensures !Free(segment) ==> PathEnd(segment) < |segment|
  {
    hide PathEnd;
    EndsAtOnce(query);
    Assoc(before + segment, after, query);
    Assoc(before, segment, after + query);
    EndsLater(before, segment + (after + query));
    if Free(segment) {
      EndsLater(segment, after + query);
      EndsLater(after, query);
      Assoc(before, segment, after);
      Empty(after);
      assert query[..0] == "";
    } else {
      EndsWithin(segment, after + query);
    }
  }

  /** A last slash added: the Location leads to the other form exactly when no segment ends it early. */
  lemma AddedLeads(segs: seq<string>, query: string)
    requires AllGood(segs) && segs != [] && (query == "" || query[0] == '?')
    ensures
      var p := Path(segs);
      && RelativePathname(p, p + "/") == "./" + segs[|segs| - 1] + "/"
      && (Resolve(p, RelativePathname(p, p + "/") + query) == p + "/" <==> Free(segs[|segs| - 1]))
  {
    var p, last, before := Path(segs), segs[|segs| - 1], Path(segs[..|segs| - 1]);
    PathEnds(segs);
    AddedNames(p, last);
    hide RemoveDots, Path, LastSlash, Resolve, RelativePathname, Free, AllGood;
    if Free(last) {
      AddedResolves(segs, query);
    } else {
      AddedFallsShort(segs, query);
    }
  }

  /** Where a Location leads, by the path it holds. */
  lemma LeadsBy(base: string, location: string, refPath: string)
    requires location[..PathEnd(location)] == refPath
    ensures Resolve(base, location) == RemoveDots(Merge(base, refPath), "")
  {
  }

  lemma AddedPath(last: string, query: string)
    requires query == "" || query[0] == '?'
    ensures
      var location := "./" + last + "/" + query;
      location[..PathEnd(location)] == "./" + if Free(last) then last + "/" else last[..PathEnd(last)]
    ensures !Free(last) ==> PathEnd(last) < |last|
  {
    assert Free("./") && Free("/");
    hide PathEnd, Free;
    PathOfLocation("./", last, "/", query);
    Assoc("./", last, "/");
  }

  lemma AddedRef(segs: seq<string>)
    requires AllGood(segs) && segs != []
    ensures RemoveDots(Merge(Path(segs), "./" + (segs[|segs| - 1] + "/")), "") == Path(segs) + "/"
  {
    var last, before := segs[|segs| - 1], Path(segs[..|segs| - 1]);
    assert Good(last);
    hide RemoveDots, Merge, AllGood, Good;
    AddingResolves(segs, last + "/");
    Assoc("/", last, "/");
    GoodSegmentPasses(last, "/", before);
    SlashEnds(before + "/" + last);
  }

  lemma AddedResolves(segs: seq<string>, query: string)
    requires AllGood(segs) && segs != [] && (query == "" || query[0] == '?') && Free(segs[|segs| - 1])
    ensures Resolve(Path(segs), "./" + segs[|segs| - 1] + "/" + query) == Path(segs) + "/"
  {
    hide RemoveDots, Path, PathEnd, Merge, Free, AllGood, Resolve;
    var last := segs[|segs| - 1];
    AddedPath(last, query);
    LeadsBy(Path(segs), "./" + last + "/" + query, "./" + (last + "/"));
    AddedRef(segs);
  }

  lemma AddedFallsShort(segs: seq<string>, query: string)
    requires AllGood(segs) && segs != [] && (query == "" || query[0] == '?') && !Free(segs[|segs| - 1])
    ensures |Resolve(Path(segs), "./" + segs[|segs| - 1] + "/" + query)| < |Path(segs)|
  {
    var last, before := segs[|segs| - 1], Path(segs[..|segs| - 1]);
    assert |Path(segs)| == |before| + 1 + |last|;
    hide RemoveDots, Path, PathEnd, Merge, Free, AllGood, Resolve;
    AddedPath(last, query);
    var cut := last[..PathEnd(last)];
    LeadsBy(Path(segs), "./" + last + "/" + query, "./" + cut);
    AddingResolves(segs, cut);
    RemovingDotsShortens("/" + cut, before);
  }

  lemma AddedNames(p: string, last: string)
    requires !EndsInSlash(p) && AfterLastSlash(p) == last && p != ""
    ensures RelativePathname(p, p + "/") == "./" + last + "/"
  {
    TrimsBack(p);
  }

  /** A last slash removed: likewise. */
  lemma RemovedLeads(segs: seq<string>, query: string)
    requires AllGood(segs) && segs != [] && (query == "" || query[0] == '?')
    ensures
      var p := Path(segs);
      && RelativePathname(p + "/", p) == "../" + segs[|segs| - 1]
      && (Resolve(p + "/", RelativePathname(p + "/", p) + query) == p <==> Free(segs[|segs| - 1]))
  {
    var p, last, before := Path(segs), segs[|segs| - 1], Path(segs[..|segs| - 1]);
    PathEnds(segs);
    RemovedNames(p, last);
    hide RemoveDots, Path, LastSlash, Resolve, RelativePathname, Free, AllGood;
    if Free(last) {
      RemovedResolves(segs, query);
    } else {
      RemovedFallsShort(segs, query);
    }
  }

  lemma RemovedPath(last: string, query: string)
    requires query == "" || query[0] == '?'
    ensures
      var location := "../" + last + query;
      location[..PathEnd(location)] == "../" + if Free(last) then last else last[..PathEnd(last)]
    ensures !Free(last) ==> PathEnd(last) < |last|
  {
    assert Free("../") && Free("");
    hide PathEnd, Free;
    PathOfLocation("../", last, "", query);
    Empty("../" + last);
  }

  lemma RemovedRef(segs: seq<string>)
    requires AllGood(segs) && segs != []
    ensures RemoveDots(Merge(Path(segs) + "/", "../" + segs[|segs| - 1]), "") == Path(segs)
  {
    var last, before := segs[|segs| - 1], Path(segs[..|segs| - 1]);
    assert Good(last) && Path(segs) == before + "/" + last;
    hide RemoveDots, Merge, AllGood, Good, Path;
    RemovingResolves(segs, last);
    Empty("/" + last);
    GoodSegmentPasses(last, "", before);
    NothingLeft(before + "/" + last);
  }

  lemma RemovedResolves(segs: seq<string>, query: string)
    requires AllGood(segs) && segs != [] && (query == "" || query[0] == '?') && Free(segs[|segs| - 1])
    ensures Resolve(Path(segs) + "/", "../" + segs[|segs| - 1] + query) == Path(segs)
  {
    hide RemoveDots, Path, PathEnd, Merge, Free, AllGood, Resolve;
    var last := segs[|segs| - 1];
    RemovedPath(last, query);
    LeadsBy(Path(segs) + "/", "../" + last + query, "../" + last);
    RemovedRef(segs);
  }

  lemma RemovedFallsShort(segs: seq<string>, query: string)
    requires AllGood(segs) && segs != [] && (query == "" || query[0] == '?') && !Free(segs[|segs| - 1])
    ensures |Resolve(Path(segs) + "/", "../" + segs[|segs| - 1] + query)| < |Path(segs)|
  {
    var last, before := segs[|segs| - 1], Path(segs[..|segs| - 1]);
    assert |Path(segs)| == |before| + 1 + |last|;
    hide RemoveDots, Path, PathEnd, Merge, Free, AllGood, Resolve;
    RemovedPath(last, query);
    var cut := last[..PathEnd(last)];
    LeadsBy(Path(segs) + "/", "../" + last + query, "../" + cut);
    RemovingResolves(segs, cut);
    RemovingDotsShortens("/" + cut, before);
  }

  lemma RemovedNames(p: string, last: string)
    requires !EndsInSlash(p) && AfterLastSlash(p) == last && p != ""
    ensures RelativePathname(p + "/", p) == "../" + last
  {
    TrimsBack(p);
  }

  lemma NothingLeft(output: string)
    ensures RemoveDots("", output) == output
  {
  }

  lemma NamesNothing(from: string, to: string, up: string)
    requires EndsInSlash(from) && AfterLastSlash(TrimSlash(to)) == "" && up == "../"
    ensures RelativePathname(from, to) == up
  {
    assert up + "" == up;
  }

  lemma TrimsToNothing(slash: string)
    requires slash == "/"
    ensures AfterLastSlash(TrimSlash(slash)) == ""
  {
    hide LastSlash;
    assert TrimSlash(slash) == "";
  }

  /** Up from two slashes is the root. */
  lemma TwoSlashesLead(from: string, slash: string, query: string)
    requires slash == "/" && from == slash + slash && (query == "" || query[0] == '?')
    ensures Resolve(from, "../" + query) == slash
  {
    LastSlashIs(from, 1);
    DropsAll(slash);
    hide RemoveDots, LastSlash, PathEnd, DropLast, Merge, FirstSegment;
    assert Free("../") && Free("");
    PathOfLocation("../", "", "", query);
    Empty("../");
    Empty(from);
    MergesAfter(from, slash, "", "../");
    Empty("/../");
    Spelled("");
    SlashStep("/../", "");
    Empty(slash);
    UpStep("", slash);
    SlashEnds("");
  }

  lemma DropsAll(slash: string)
    requires slash == "/"
    ensures DropLast(slash) == ""
  {
  }

  lemma SlashStep(rest: string, output: string)
    requires rest != "" && rest[0] == '/'
    ensures RemoveDots("/" + rest, output) == RemoveDots(rest, output + "/")
  {
    var input := "/" + rest;
    assert input[0] == '/' && input[1] == '/' && input[1..] == rest && input[..1] == "/";
    PrefixChars(input, "../");
    PrefixChars(input, "./");
    PrefixChars(input, "/./");
    PrefixChars(input, "/../");
    FirstSegmentIs(input, 1);
  }

  /** The segment a redirect names, which is the last of the path either way. */
  function Named(q: string): string {
    AfterLastSlash(TrimSlash(q))
  }

  /** The Location of a redirect to the other form, with any query, resolved against the text it is made from. */
  lemma LeadsToTheOtherForm(q: string, query: string)
    requires Accepted(q) && Invert(q).Some? && (query == "" || query[0] == '?')
    ensures Resolve(q, RelativePathname(q, Invert(q).value) + query) == Invert(q).value <==> Free(Named(q))
  {
    if q == "//" {
      TwoSlashesLeadOut(q, "/", query);
    } else {
      var segs :| Spells(segs, q);
      PathEnds(segs);
      TrimsBack(Path(segs));
      hide RemoveDots, Path, LastSlash, Resolve, RelativePathname, EndsInSlash, AllGood, TrimSlash, AfterLastSlash;
      hide Free;
      if q == Path(segs) {
        AddedLeads(segs, query);
      } else {
        RemovedLeads(segs, query);
      }
    }
  }

  lemma TwoSlashesLeadOut(q: string, slash: string, query: string)
    requires slash == "/" && q == slash + slash && (query == "" || query[0] == '?')
    ensures Invert(q) == Some(slash) && Free(Named(q))
    ensures Resolve(q, RelativePathname(q, slash) + query) == slash
  {
    hide *;
    TwoSlashesInvert(q, slash);
    TwoSlashesName(q, slash, "../");
    TwoSlashesLead(q, slash, query);
  }

  lemma TwoSlashesInvert(q: string, slash: string)
    requires slash == "/" && q == slash + slash
    ensures EndsInSlash(q) && Invert(q) == Some(slash) && Free(Named(q))
  {
    hide LastSlash;
    assert q[..1] == slash && |q| == 2;
    assert AfterLastSlash(slash) == "";
  }

  lemma TwoSlashesName(q: string, slash: string, up: string)
    requires slash == "/" && q == slash + slash && up == "../"
    ensures RelativePathname(q, slash) == up
  {
    TrimsToNothing(slash);
    TwoSlashesInvert(q, slash);
    hide EndsInSlash, AfterLastSlash, TrimSlash, Named, Free, Invert;
    NamesNothing(q, slash, up);
  }

  lemma TrimsBack(p: string)
    requires p != "" && !EndsInSlash(p)
    ensures TrimSlash(p) == p && TrimSlash(p + "/") == p && EndsInSlash(p + "/")
    ensures Invert(p) == Some(p + "/") && (p + "/" != "/" ==> Invert(p + "/") == Some(p))
  {
    assert (p + "/")[..|p|] == p;
  }

  /**
   A normalization redirect, for any path that is accepted, any policy, and any base without a last
   slash: it is to the other form of the path; that form redirects nowhere; and against the same
   text the Location leads exactly there unless the last segment has a raw `?` or `#`. Where it leads
   against the path the client asked for is the subject of module Redirects.
   */
  lemma RedirectsOnce(p: string, base: string, policy: string, rawQuery: string)
    requires NormalizePath(p).Some? && !EndsInSlash(base)
    ensures
      var q := NormalizePath(p).value;
      var target := NormalizeRoutePath(q, base, policy);
      && NormalizeRoutePath(target, base, policy) == target
      && (RouteNormalization(q, base, policy, rawQuery).Some? <==> target != q)
      && (target != q ==>
            && Invert(q) == Some(target)
            && (Resolve(q, RouteNormalization(q, base, policy, rawQuery).value) == target <==> Free(Named(q))))
  {
    var q := NormalizePath(p).value;
    var target := NormalizeRoutePath(q, base, policy);
    NormalizedIsAccepted(p);
    OtherForm(q, base, policy);
    if target != q {
      var query := if rawQuery != "" then "?" + rawQuery else "";
      LeadsToTheOtherForm(q, query);
    }
  }

  lemma OtherForm(q: string, base: string, policy: string)
    requires Accepted(q) && !EndsInSlash(base)
    ensures
      var target := NormalizeRoutePath(q, base, policy);
      && NormalizeRoutePath(target, base, policy) == target
      && (target != q ==> Invert(q) == Some(target))
  {
    if q == "//" {
      TwoSlashesInvert(q, "/");
    } else if q != "/" {
      var segs :| Spells(segs, q);
      PathEnds(segs);
      TrimsBack(Path(segs));
      OtherFormOf(Path(segs), q, base, policy);
    }
  }

  lemma OtherFormOf(p: string, q: string, base: string, policy: string)
    requires p != "" && !EndsInSlash(p) && !EndsInSlash(base) && (q == p || q == p + "/")
    ensures
      var target := NormalizeRoutePath(q, base, policy);
      && NormalizeRoutePath(target, base, policy) == target
      && (target != q ==> Invert(q) == Some(target))
  {
    TrimsBack(p);
    assert base + "/" == p + "/" ==> base == p by {
      assert (base + "/")[..|base|] == base && (p + "/")[..|p|] == p;
    }
    assert p + "/" != "/" && |p + "/"| > 1;
    assert EndsInSlash(base + "/");
    assert p != base + "/";
  }

  /** A Location with a raw question mark in its segment leads elsewhere. */
  lemma RawQuestionMarkMisleads()
    ensures Accepted("/a?b") && Invert("/a?b") == Some("/a?b/")
    ensures Resolve("/a?b", RelativePathname("/a?b", "/a?b/")) != "/a?b/"
  {
    assert Good("a?b");
    assert Path([]) == "" && [ "a?b" ][..0] == [];
    assert Path(["a?b"]) == "" + "/" + "a?b" == "/a?b";
    assert Spells(["a?b"], "/a?b");
    assert "/a?b" + "/" == "/a?b/";
    LeadsToTheOtherForm("/a?b", "");
    Empty(RelativePathname("/a?b", "/a?b/"));
    PathEnds(["a?b"]);
    assert Named("/a?b") == "a?b" && "a?b"[1] == '?';
  }
}
