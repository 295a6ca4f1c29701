/**
 Where trailing-slash redirects lead when they are made from a decoded path (static.go, endpoint.go):
 the client resolves the Location against the path it asked for, escapes and all, and the server
 decodes what it is then asked for.
 */
module Redirects {
  import opened Wrappers
  import opened TrailingSlash
  import Pathname

  // ---------------------------------------------------------------- decoding

  /** url.PathUnescape: every escape undone, and None where a percent sign begins none. */
  function Unescape(s: string): Option<string> {
    if s == "" then Some("")
    else if s[0] != '%' then Pathname.Prepend([s[0]], Unescape(s[1..]))
    else if !Pathname.Escaped(s) then None
    else Pathname.Prepend([Pathname.ByteOf(s)], Unescape(s[3..]))
  }

  /** Where it succeeds it is the URL standard's percent-decode. */
  lemma {:induction false} UnescapeIsPercentDecode(s: string)
    requires Unescape(s).Some?
    ensures Unescape(s).value == Pathname.PercentDecode(s)
  {
    if s != "" {
      UnescapeIsPercentDecode(if s[0] == '%' then s[3..] else s[1..]);
    }
  }

  /** A request path is decoded in full for files, and but for reserved characters for routes. */
  datatype How = Fully | Routed

  function Read(how: How, s: string): Option<string> {
    if how.Fully? then Unescape(s) else Pathname.Decoded(s)
  }

  /** What one escape is read as. */
  function Undone(how: How, e: string): string
    requires |e| == 3 && Pathname.Escaped(e)
  {
    if how.Routed? && Pathname.Survives(e) then e else [Pathname.ByteOf(e)]
  }

  lemma ReadChar(how: How, c: char, rest: string)
    requires c != '%'
    ensures Read(how, [c] + rest) == Pathname.Prepend([c], Read(how, rest))
  {
    assert ([c] + rest)[1..] == rest;
  }

  lemma ReadEscape(how: How, e: string, rest: string)
    requires |e| == 3 && Pathname.Escaped(e)
    ensures Read(how, e + rest) == Pathname.Prepend(Undone(how, e), Read(how, rest))
  {
    Pathname.DecodesEscape(e, rest);
    assert (e + rest)[3..] == rest && (e + rest)[0] == e[0];
  }

  lemma ReadBroken(how: How, s: string)
    requires s != "" && s[0] == '%' && !Pathname.Escaped(s)
    ensures Read(how, s).None?
  {
  }

  lemma ReadNothing(how: How)
    ensures Read(how, "") == Some("")
  {
  }

  function Both(x: Option<string>, y: Option<string>): Option<string> {
    if x.Some? && y.Some? then Some(x.value + "/" + y.value) else None
  }

  lemma BothPrepends(s: string, x: Option<string>, y: Option<string>)
    ensures Both(Pathname.Prepend(s, x), y) == Pathname.Prepend(s, Both(x, y))
  {
    if x.Some? && y.Some? {
      assert (s + x.value) + "/" + y.value == s + (x.value + "/" + y.value);
    }
  }

  /** No escape reaches across a slash. */
  lemma {:induction false} ReadsAround(how: How, a: string, b: string)
    ensures Read(how, a + "/" + b) == Both(Read(how, a), Read(how, b))
    decreases |a|
  {
    hide Read, Undone, Both;
    var s := a + "/" + b;
    if a == "" {
      assert s == ['/'] + b;
      ReadChar(how, '/', b);
      ReadNothing(how);
      BothNothing(Read(how, b));
    } else if a[0] != '%' {
      var rest := a[1..];
      assert a == [a[0]] + rest && s == [a[0]] + (rest + "/" + b);
      ReadsAround(how, rest, b);
      ReadChar(how, a[0], rest);
      ReadChar(how, a[0], rest + "/" + b);
      BothPrepends([a[0]], Read(how, rest), Read(how, b));
    } else if Pathname.Escaped(a) {
      var e, rest := a[..3], a[3..];
      assert a == e + rest && s == e + (rest + "/" + b) && Pathname.Escaped(e);
      ReadsAround(how, rest, b);
      ReadEscape(how, e, rest);
      ReadEscape(how, e, rest + "/" + b);
      BothPrepends(Undone(how, e), Read(how, rest), Read(how, b));
    } else {
      StaysBroken(a, b);
      ReadBroken(how, a);
      ReadBroken(how, s);
      BothNone(Read(how, a), Read(how, b));
    }
  }

  lemma BothNothing(y: Option<string>)
    ensures Both(Some(""), y) == Pathname.Prepend(['/'], y)
  {
    if y.Some? {
      assert "" + "/" + y.value == ['/'] + y.value;
    }
  }

  lemma BothNone(x: Option<string>, y: Option<string>)
    requires x.None?
    ensures Both(x, y).None?
  {
  }

  lemma StaysBroken(a: string, b: string)
    requires a != "" && a[0] == '%' && !Pathname.Escaped(a)
    ensures (a + "/" + b)[0] == '%' && !Pathname.Escaped(a + "/" + b)
  {
    var s := a + "/" + b;
    assert s[|a|] == '/' && forall i :: 0 <= i < |a| ==> s[i] == a[i];
  }

  /** What is read is no longer than it was, shorter where an escape was undone, and never vanishes. */
  lemma {:induction false} ReadShrinks(how: How, s: string)
    ensures Read(how, s).Some? ==>
      var r := Read(how, s).value;
      |r| <= |s| && (s != "" ==> r != "") && (how.Fully? && '%' in s ==> |r| < |s|)
    ensures '%' !in s ==> Read(how, s) == Some(s)
    decreases |s|
  {
    hide Read;
    if s == "" {
      ReadNothing(how);
    } else if s[0] != '%' {
      assert s == [s[0]] + s[1..];
      ReadShrinks(how, s[1..]);
      ReadChar(how, s[0], s[1..]);
    } else if Pathname.Escaped(s) {
      assert s == s[..3] + s[3..] && Pathname.Escaped(s[..3]);
      ReadShrinks(how, s[3..]);
      ReadEscape(how, s[..3], s[3..]);
    } else {
      ReadBroken(how, s);
    }
  }

  // ---------------------------------------------------------------- the segments of the path asked for

  lemma {:induction false} SplitsAround(x: string, y: string)
    ensures Split(x + "/" + y) == Split(x) + Split(y)
  {
    hide Split;
    if y == "" {
      SplitAppends(x, "");
      OnePart();
    } else {
      var n := |y| - 1;
      SplitsAround(x, y[..n]);
      assert y == y[..n] + [y[n]] && x + "/" + y == (x + "/" + y[..n]) + [y[n]];
      SplitNext(y[..n], y[n]);
      SplitNext(x + "/" + y[..n], y[n]);
      ExtendsLast(Split(x), Split(y[..n]), y[n]);
    }
  }

  lemma SplitNext(s: string, c: char)
    ensures
      var before := Split(s);
      Split(s + [c]) == if c == '/' then before + [""] else before[..|before| - 1] + [before[|before| - 1] + [c]]
  {
    assert (s + [c])[..|s|] == s;
  }

  lemma ExtendsLast(a: seq<string>, b: seq<string>, c: char)
    requires |b| > 0
    ensures
      var all := a + b;
      && all + [""] == a + (b + [""])
      && all[..|all| - 1] + [all[|all| - 1] + [c]] == a + (b[..|b| - 1] + [b[|b| - 1] + [c]])
  {
  }

  /** A text is what its parts spell. */
  lemma {:induction false} PartsSpell(x: string, segs: seq<string>)
    requires Split(x) == [""] + segs
    ensures x == Path(segs)
  {
    if x == "" {
      assert segs == [];
    } else {
      var n := |x| - 1;
      var before, c := Split(x[..n]), x[n];
      assert x == x[..n] + [c];
      if c == '/' {
        assert segs != [] && before == [""] + segs[..|segs| - 1] && segs[|segs| - 1] == "" by {
          LastOfParts(before, "", segs);
        }
        PartsSpell(x[..n], segs[..|segs| - 1]);
      } else {
        var last := before[|before| - 1];
        LastOfParts(before[..|before| - 1], last + [c], segs);
        var less := segs[..|segs| - 1] + [last];
        assert before == before[..|before| - 1] + [last] == [""] + less;
        PartsSpell(x[..n], less);
        assert less[..|less| - 1] == segs[..|segs| - 1];
        Assoc(Path(segs[..|segs| - 1]) + "/", last, [c]);
      }
    }
  }

  lemma LastOfParts(before: seq<string>, last: string, segs: seq<string>)
    requires before + [last] == [""] + segs && (last != "" || before != [])
    ensures segs != [] && before == [""] + segs[..|segs| - 1] && segs[|segs| - 1] == last
  {
    var all := before + [last];
    assert all[0] == "" && all[|all| - 1] == last && all[..|all| - 1] == before;
    assert |before| == |segs|;
    if segs != [] {
      assert ([""] + segs)[..|segs|] == [""] + segs[..|segs| - 1];
    }
  }

  /** Two texts around a slash share out the parts. */
  lemma SharesParts(x: string, y: string, parts: seq<string>)
    requires Split(x + "/" + y) == [""] + parts
    ensures
      var j := |Split(x)| - 1;
      && 0 <= j < |parts| && Split(y) == parts[j..] && x == Path(parts[..j])
  {
    hide Split, Path;
    SplitsAround(x, y);
    var j := |Split(x)| - 1;
    var all := Split(x) + Split(y);
    assert Split(x) == all[..j + 1] && Split(y) == all[j + 1..];
    assert ([""] + parts)[..j + 1] == [""] + parts[..j] && ([""] + parts)[j + 1..] == parts[j..];
    PartsSpell(x, parts[..j]);
  }

  lemma CutsLast(e: string) returns (front: string, last: string)
    requires e != "" && e[0] == '/'
    ensures e == front + "/" + last && '/' !in last && (front == "" || front[0] == '/') && |front| < |e|
  {
    var k := LastSlash(e);
    assert '/' in e by { assert e[0] in e; }
    front, last := e[..k], e[k + 1..];
    assert e == e[..k] + [e[k]] + e[k + 1..];
  }

  /** A raw segment that is read as good parts, or as good parts and a last slash, is good. */
  lemma RawIsGood(how: How, raw: string, parts: seq<string>)
    requires '/' !in raw && Read(how, raw).Some? && Split(Read(how, raw).value) == parts
    requires (parts[0] != "" && parts[0] != "." && parts[0] != "..") || |parts| > 1
    ensures Good(raw)
  {
    hide Read;
    ReadShrinks(how, raw);
    OnePart();
  }

  lemma OnePart()
    ensures Split("") == [""] && Split(".") == ["."] && Split("..") == [".."]
  {
    hide Split;
    SplitNext("", '.');
    SplitNext(".", '.');
    NoParts();
    assert "" + ['.'] == "." && "." + ['.'] == "..";
    assert [""][..0] + ["" + ['.']] == ["."] && ["."][..0] + ["." + ['.']] == [".."];
  }

  lemma NoParts()
    ensures Split("") == [""]
  {
  }

  /** What is read as good segments is spelled with good segments. */
  lemma {:induction false} RawSegments(how: How, e: string, segs: seq<string>) returns (raw: seq<string>)
    requires e == "" || e[0] == '/'
    requires AllGood(segs) && Read(how, e) == Some(Path(segs))
    ensures AllGood(raw) && Path(raw) == e && (raw == [] <==> segs == [])
    decreases |e|
  {
    hide Read, Split;
    if segs != [] {
      BeginsWithSlash(segs);
    }
    ReadShrinks(how, e);
    if e == "" {
      raw := [];
    } else {
      var front, last := CutsLast(e);
      ReadsAround(how, front, last);
      var x, y := Read(how, front).value, Read(how, last).value;
      SplitOfPath(segs);
      SharesParts(x, y, segs);
      var j := |Split(x)| - 1;
      assert Good(segs[j]);
      RawIsGood(how, last, segs[j..]);
      var before := RawSegments(how, front, segs[..j]);
      raw := before + [last];
      AppendsGood(before, last);
    }
  }

  lemma AppendsGood(before: seq<string>, last: string)
    requires AllGood(before) && Good(last)
    ensures AllGood(before + [last]) && Path(before + [last]) == Path(before) + "/" + last
  {
    assert (before + [last])[..|before|] == before;
  }

  // ---------------------------------------------------------------- what a resolved path is read as

  lemma DotEnds(output: string)
    ensures RemoveDots("/.", output) == output + "/" && RemoveDots("/..", output) == DropLast(output) + "/"
  {
    SlashEnds(output);
    SlashEnds(DropLast(output));
    OneDot("/.");
    TwoDots("/..");
    hide DropLast, HasPrefix;
  }

  lemma OneDot(input: string)
    requires input == "/."
    ensures !HasPrefix(input, "../") && !HasPrefix(input, "./") && !HasPrefix(input, "/./")
  {
    assert input[0] == '/';
    PrefixChars(input, "./");
  }

  lemma TwoDots(input: string)
    requires input == "/.."
    ensures !HasPrefix(input, "../") && !HasPrefix(input, "./") && !HasPrefix(input, "/./") && !HasPrefix(input, "/../")
  {
    assert input[0] == '/' && input[2] == '.';
    PrefixChars(input, "../");
    PrefixChars(input, "./");
    PrefixChars(input, "/./");
  }

  /** Where a text without a slash leads after good segments. */
  lemma TextLeads(segs: seq<string>, text: string)
    requires AllGood(segs) && '/' !in text
    ensures
      var to := RemoveDots("/" + text, Path(segs));
      || (to == Path(segs) + "/" + text)
      || (to == Path(segs) + "/")
      || (to == DropLast(Path(segs)) + "/")
    ensures Good(text) || text == "" ==> RemoveDots("/" + text, Path(segs)) == Path(segs) + "/" + text
  {
    hide RemoveDots, Path, DropLast;
    DotEnds(Path(segs));
    SlashEnds(Path(segs));
    Empty("/");
    Empty(Path(segs) + "/");
    Empty("/" + text);
    assert "/" + "." == "/." && "/" + ".." == "/..";
    if text != "" && text != "." && text != ".." {
      GoodSegmentPasses(text, "", Path(segs));
      NothingLeft(Path(segs) + "/" + text);
    }
  }

  /** Dropping a segment drops what it is read as. */
  lemma DropReads(segs: seq<string>)
    requires AllGood(segs) && Unescape(Path(segs)).Some?
    ensures Unescape(DropLast(Path(segs))).Some?
    ensures segs != [] ==> |Unescape(DropLast(Path(segs))).value| < |Unescape(Path(segs)).value|
    ensures segs == [] ==> DropLast(Path(segs)) == Path(segs) == ""
  {
    if segs != [] {
      var n := |segs| - 1;
      PathEnds(segs);
      hide Unescape, Path, DropLast, LastSlash;
      Around(Path(segs[..n]), segs[n]);
    }
  }

  lemma Around(a: string, b: string)
    ensures Unescape(a + "/" + b) == Both(Unescape(a), Unescape(b))
  {
    ReadsAround(Fully, a, b);
  }

  lemma Shrinks(s: string)
    ensures Unescape(s).Some? ==>
      |Unescape(s).value| <= |s| && (s != "" ==> Unescape(s).value != "") && ('%' in s ==> |Unescape(s).value| < |s|)
    ensures '%' !in s ==> Unescape(s) == Some(s)
  {
    ReadShrinks(Fully, s);
  }

  /** And it is read as nothing longer. */
  lemma ReadsNoLonger(segs: seq<string>, text: string)
    requires AllGood(segs) && Unescape(Path(segs)).Some? && '/' !in text
    ensures
      var to := Unescape(RemoveDots("/" + text, Path(segs)));
      to.Some? ==> |to.value| <= |Unescape(Path(segs)).value| + 1 + |text|
  {
    hide Unescape, RemoveDots, Path, DropLast;
    TextLeads(segs, text);
    DropReads(segs);
    Shrinks(text);
    Shrinks("");
    Around(Path(segs), text);
    Around(Path(segs), "");
    Around(DropLast(Path(segs)), "");
    Empty(Path(segs) + "/");
    Empty(DropLast(Path(segs)) + "/");
  }

  /** A segment put after others is read as d exactly when it is d, with nothing to decode in it. */
  lemma SiblingReads(segs: seq<string>, s: string, d: string, tail: string)
    requires AllGood(segs) && Unescape(Path(segs)).Some? && (tail == "" || tail == "/")
    requires |s| < |d| || s == d
    ensures
      var pd := Unescape(Path(segs)).value;
      Unescape(Path(segs) + "/" + (s + tail)) == Some(pd + "/" + (d + tail)) <==> s == d && '%' !in s
  {
    hide Unescape, Path;
    var pd := Unescape(Path(segs)).value;
    Around(Path(segs), s + tail);
    TailReads(s, tail);
    Shrinks(s);
    if Unescape(s).Some? {
      var u := Unescape(s).value;
      if pd + "/" + (u + tail) == pd + "/" + (d + tail) {
        SameSuffix(pd + "/", u + tail, d + tail);
        SamePrefix(u, d, tail);
      }
    }
  }

  lemma SameSuffix(a: string, x: string, y: string)
    requires a + x == a + y
    ensures x == y
  {
    assert (a + x)[|a|..] == x && (a + y)[|a|..] == y;
  }

  lemma SamePrefix(u: string, d: string, tail: string)
    requires u + tail == d + tail
    ensures u == d
  {
    assert |u| == |u + tail| - |tail| == |d|;
    assert u == (u + tail)[..|u|] && d == (d + tail)[..|d|];
  }

  lemma TailReads(s: string, tail: string)
    requires tail == "" || tail == "/"
    ensures Unescape(s + tail) == if Unescape(s).Some? then Some(Unescape(s).value + tail) else None
  {
    hide Unescape;
    Empty(s);
    if tail == "/" {
      Around(s, "");
      Shrinks("");
      Empty(s + "/");
    }
    if Unescape(s).Some? {
      Empty(Unescape(s).value);
      Empty(Unescape(s).value + "/");
    }
  }

  // ---------------------------------------------------------------- redirects made from a path decoded in full

  /** Text that stands for itself as a segment: nothing ends a path, parts it, climbs in it, or is decoded. */
  predicate Stands(t: string) {
    Free(t) && '%' !in t && (t == "" || Good(t))
  }

  /**
   What can be checked before redirecting: what the last raw segment is read as stands for itself; a
   last slash may be written as an escape, but only in the only segment.
   */
  predicate LeadsBack(e: string) {
    var d := Unescape(Named(e));
    && d.Some? && Stands(TrimSlash(d.value))
    && (EndsInSlash(d.value) ==> Named(e) == e[1..])
  }

  /** The last part of a decoded path: all that its last raw segment is read as, or less. */
  lemma LastRead(x: string, y: string)
    ensures AfterLastSlash(x + "/" + y) == AfterLastSlash(y)
    ensures '/' !in y ==> AfterLastSlash(y) == y
    ensures '/' in y ==> |AfterLastSlash(y)| < |y|
    ensures '/' !in AfterLastSlash(y)
  {
    var s := x + "/" + y;
    var k := LastSlash(y);
    if k < 0 {
      assert s[|x| + 1..] == y;
      LastSlashIs(s, |x|);
    } else {
      assert s[|x| + 1 + k + 1..] == y[k + 1..] && s[|x| + 1 + k] == '/';
      LastSlashIs(s, |x| + 1 + k);
    }
  }


  /** The last part of a text, but for a last slash: all of it, or less. */
  lemma LastPart(t: string)
    ensures
      var s := AfterLastSlash(TrimSlash(t));
      && '/' !in s && (s == t || |s| < |t|) && (EndsInSlash(t) ==> |s| < |t|)
      && (Stands(t) <==> Free(s) && s == t && '%' !in s && (s == "" || Good(s)))
      && (!Free(s) ==> PathEnd(s) < |s| && '/' !in s[..PathEnd(s)])
  {
    LastRead("", TrimSlash(t));
    hide LastSlash;
    var s := AfterLastSlash(TrimSlash(t));
    assert '/' !in t ==> s == t;
    assert forall i :: 0 <= i < PathEnd(s) ==> s[..PathEnd(s)][i] in s;
  }

  lemma NotEndsInSlash(x: string, y: string)
    requires y != ""
    ensures EndsInSlash(x + "/" + y) <==> EndsInSlash(y)
  {
  }


  /** The parts of the path asked for and of the path it is read as. */
  ghost predicate Parted(raw: seq<string>, pd: string, d: string) {
    && raw != [] && AllGood(raw)
    && Unescape(Path(raw[..|raw| - 1])) == Some(pd)
    && Unescape(raw[|raw| - 1]) == Some(d)
    && d != ""
  }


  lemma Parts(raw: seq<string>, p: string) returns (pd: string, d: string)
    requires raw != [] && AllGood(raw) && Unescape(Path(raw)) == Some(p)
    ensures Parted(raw, pd, d) && p == pd + "/" + d
    ensures Named(Path(raw)) == Named(Path(raw) + "/") == raw[|raw| - 1]
  {
    var n := |raw| - 1;
    PathEnds(raw);
    TrimsBack(Path(raw));
    hide Unescape, Path, LastSlash, DropLast;
    assert Good(raw[n]);
    Around(Path(raw[..n]), raw[n]);
    Shrinks(raw[n]);
    pd, d := Unescape(Path(raw[..n])).value, Unescape(raw[n]).value;
  }


  lemma FrontIsGood(raw: seq<string>)
    requires raw != [] && AllGood(raw)
    ensures AllGood(raw[..|raw| - 1])
  {
  }


  lemma DotLeads(segs: seq<string>, s: string, tail: string)
    requires AllGood(segs) && (s == "." || s == "..") && (tail == "" || tail == "/")
    ensures
      var to := RemoveDots("/" + (s + tail), Path(segs));
      to == Path(segs) + "/" || to == DropLast(Path(segs)) + "/"
  {
    hide RemoveDots, Path, DropLast;
    if tail == "" {
      Empty(s);
      DotEnds(Path(segs));
      assert "/" + "." == "/." && "/" + ".." == "/..";
    } else {
      DotStep("", Path(segs));
      UpStep("", Path(segs));
      SlashEnds(Path(segs));
      SlashEnds(DropLast(Path(segs)));
      assert "/" + ("." + "/") == "/./" + "" && "/" + (".." + "/") == "/../" + "" && "/" + "" == "/";
    }
  }

  lemma DotReads(segs: seq<string>, s: string, tail: string)
    requires AllGood(segs) && Unescape(Path(segs)).Some? && (s == "." || s == "..") && (tail == "" || tail == "/")
    ensures
      var to := Unescape(RemoveDots("/" + (s + tail), Path(segs)));
      to.Some? ==> |to.value| <= |Unescape(Path(segs)).value| + 1
  {
    hide Unescape, RemoveDots, Path, DropLast;
    DotLeads(segs, s, tail);
    DropReads(segs);
    Shrinks("");
    Around(Path(segs), "");
    Around(DropLast(Path(segs)), "");
    Empty(Path(segs) + "/");
    Empty(DropLast(Path(segs)) + "/");
  }

  /** Resolved past other segments, s is read as d exactly when it is d and stands for itself. */
  lemma Lands(segs: seq<string>, s: string, d: string, tail: string)
    requires AllGood(segs) && Unescape(Path(segs)).Some? && '/' !in s && (s == d || |s| < |d|)
    requires (tail == "" || tail == "/") && (s == "" ==> tail == "")
    ensures
      Unescape(RemoveDots("/" + (s + tail), Path(segs))) == Some(Unescape(Path(segs)).value + "/" + (d + tail)) <==>
      s == d && '%' !in s && (s == "" || Good(s))
  {
    hide Unescape, RemoveDots, Path, DropLast;
    if s == "." || s == ".." {
      DotReads(segs, s, tail);
    } else {
      if tail == "" {
        Empty(s);
        TextLeads(segs, s);
      } else {
        Assoc("/", s, "/");
        GoodSegmentPasses(s, "/", Path(segs));
        SlashEnds(Path(segs) + "/" + s);
        Assoc(Path(segs) + "/", s, "/");
      }
      SiblingReads(segs, s, d, tail);
    }
  }

  /** No last slash on either: one is added. */
  lemma AddedReads(raw: seq<string>, pd: string, d: string, query: string)
    requires Parted(raw, pd, d) && !EndsInSlash(d) && (query == "" || query[0] == '?')
    ensures
      var s := AfterLastSlash(d);
      Unescape(Resolve(Path(raw), "./" + s + "/" + query)) == Some(pd + "/" + (d + "/")) <==> Stands(d)
  {
    hide RemoveDots, Path, PathEnd, Merge, AllGood, Resolve, Unescape, LastSlash, AfterLastSlash, Stands, Free, Good;
    var s := AfterLastSlash(d);
    var front := raw[..|raw| - 1];
    FrontIsGood(raw);
    LastPart(d);
    LastIsThere(d);
    AddedPath(s, query);
    if Free(s) {
      LeadsBy(Path(raw), "./" + s + "/" + query, "./" + (s + "/"));
      AddingResolves(raw, s + "/");
      Lands(front, s, d, "/");
    } else {
      var cut := s[..PathEnd(s)];
      LeadsBy(Path(raw), "./" + s + "/" + query, "./" + cut);
      AddingResolves(raw, cut);
      ReadsNoLonger(front, cut);
    }
  }

  lemma LastIsThere(d: string)
    requires d != "" && !EndsInSlash(d)
    ensures AfterLastSlash(d) != ""
  {
  }

  /** A last slash on both: one is removed. */
  lemma RemovedReads(raw: seq<string>, pd: string, d: string, query: string)
    requires Parted(raw, pd, d) && (query == "" || query[0] == '?')
    ensures
      var s := AfterLastSlash(TrimSlash(d));
      Unescape(Resolve(Path(raw) + "/", "../" + s + query)) == Some(pd + "/" + d) <==> Stands(d)
  {
    hide RemoveDots, Path, PathEnd, Merge, AllGood, Resolve, Unescape, LastSlash, AfterLastSlash, Stands, Free, Good;
    var s := AfterLastSlash(TrimSlash(d));
    var front := raw[..|raw| - 1];
    FrontIsGood(raw);
    LastPart(d);
    RemovedPath(s, query);
    if Free(s) {
      LeadsBy(Path(raw) + "/", "../" + s + query, "../" + s);
      RemovingResolves(raw, s);
      Empty(s);
      Empty(d);
      Lands(front, s, d, "");
    } else {
      var cut := s[..PathEnd(s)];
      LeadsBy(Path(raw) + "/", "../" + s + query, "../" + cut);
      RemovingResolves(raw, cut);
      ReadsNoLonger(front, cut);
    }
  }

  /** From a path without a last slash, up out of its directory. */
  lemma UpAndOver(raw: seq<string>, text: string)
    requires AllGood(raw) && raw != []
    ensures RemoveDots(Merge(Path(raw), "../" + text), "") == RemoveDots("/" + text, DropLast(Path(raw[..|raw| - 1])))
  {
    var before := Path(raw[..|raw| - 1]);
    PathEnds(raw);
    hide RemoveDots, Path, LastSlash, DropLast;
    MergesAfter(Path(raw), before, raw[|raw| - 1], "../" + text);
    PathPasses(raw[..|raw| - 1], "/../" + text, "");
    UpStep(text, before);
    Empty(before);
    Spelled(text);
  }


  /** A last slash that is only in the decoded path: the Location goes up too far, unless there is nowhere to go. */
  lemma EscapedSlashReads(raw: seq<string>, pd: string, t: string, query: string)
    requires Parted(raw, pd, t + "/") && (query == "" || query[0] == '?')
    ensures
      var s := AfterLastSlash(TrimSlash(pd + "/" + t));
      Unescape(Resolve(Path(raw), "../" + s + query)) == Some(pd + "/" + t) <==> Stands(t) && |raw| == 1
  {
    hide RemoveDots, PathEnd, Merge, AllGood, Resolve, Unescape, LastSlash, AfterLastSlash, DropLast, Path, Stands;
    hide Free, Good;
    var s := AfterLastSlash(TrimSlash(pd + "/" + t));
    FrontIsGood(raw);
    LastPart(pd + "/" + t);
    var text := if Free(s) then s else s[..PathEnd(s)];
    RemovedPath(s, query);
    LeadsBy(Path(raw), "../" + s + query, "../" + text);
    UpAndOver(raw, text);
    if |raw| == 1 {
      EscapedSlashInOnly(raw, pd, t);
    } else {
      EscapedSlashBelow(raw, pd, t, text);
    }
  }

  /** The last part of what is redirected to, in terms of the last segment. */
  lemma NamedPart(pd: string, t: string)
    ensures
      AfterLastSlash(TrimSlash(pd + "/" + t)) ==
      if t == "" then AfterLastSlash(pd) else AfterLastSlash(TrimSlash(t))
  {
    hide AfterLastSlash;
    TrimsPart(pd, t);
    if t != "" {
      LastRead(pd, TrimSlash(t));
    }
  }

  lemma TrimsPart(pd: string, t: string)
    ensures TrimSlash(pd + "/" + t) == if t == "" then pd else pd + "/" + TrimSlash(t)
  {
    var target := pd + "/" + t;
    if t == "" {
      assert target[..|pd|] == pd;
    } else if EndsInSlash(t) {
      assert target[..|target| - 1] == pd + "/" + t[..|t| - 1];
    }
  }

  lemma NoLastPart()
    ensures AfterLastSlash("") == "" && TrimSlash("") == ""
  {
  }

  lemma EscapedSlashInOnly(raw: seq<string>, pd: string, t: string)
    requires Parted(raw, pd, t + "/") && |raw| == 1
    ensures
      var s := AfterLastSlash(TrimSlash(pd + "/" + t));
      var text := if Free(s) then s else s[..PathEnd(s)];
      Unescape(RemoveDots("/" + text, DropLast(Path(raw[..|raw| - 1])))) == Some(pd + "/" + t) <==> Stands(t)
  {
    hide RemoveDots, PathEnd, Unescape, LastSlash, AfterLastSlash, DropLast, Path, Stands, Free, Good;
    FrontIsEmpty(raw);
    Shrinks("");
    NamedPart(pd, t);
    NoLastPart();
    LastPart(t);
    var s := AfterLastSlash(TrimSlash(t));
    if Free(s) {
      Empty(s);
      Empty(t);
      Lands([], s, t, "");
    } else {
      ReadsNoLonger([], s[..PathEnd(s)]);
    }
  }

  lemma EscapedSlashBelow(raw: seq<string>, pd: string, t: string, text: string)
    requires Parted(raw, pd, t + "/") && |raw| > 1 && '/' !in text &&
      |text| <= |AfterLastSlash(TrimSlash(pd + "/" + t))|
    ensures Unescape(RemoveDots("/" + text, DropLast(Path(raw[..|raw| - 1])))) != Some(pd + "/" + t)
  {
    var front := raw[..|raw| - 1];
    var up, last := front[..|front| - 1], front[|front| - 1];
    FrontIsGood(raw);
    FrontIsGood(front);
    PathEnds(front);
    hide RemoveDots, AllGood, Unescape, DropLast, Path, LastSlash, AfterLastSlash;
    Around(Path(up), last);
    var pu, pl := Unescape(Path(up)).value, Unescape(last).value;
    assert pd == pu + "/" + pl;
    NamedPart(pd, t);
    LastRead(pu, pl);
    LastPart(t);
    ReadsNoLonger(up, text);
  }

  lemma FrontIsEmpty(raw: seq<string>)
    requires |raw| == 1
    ensures raw[..|raw| - 1] == [] && Path(raw[..|raw| - 1]) == Path([]) == "" && DropLast("") == ""
  {
  }


  lemma OnlySegment(raw: seq<string>)
    requires raw != [] && AllGood(raw)
    ensures Path(raw)[1..] == raw[|raw| - 1] <==> |raw| == 1
  {
    var n := |raw| - 1;
    var p := Path(raw);
    assert p == Path(raw[..n]) + "/" + raw[n];
    if n == 0 {
      assert Path(raw[..0]) == "";
    } else {
      BeginsWithSlash(raw[..n]);
      assert |p[1..]| > |raw[n]|;
    }
  }


  /** Neither the path asked for nor the path it is read as has a last slash. */
  lemma LeadsAdding(raw: seq<string>, pd: string, d: string, query: string)
    requires Parted(raw, pd, d) && !EndsInSlash(d) && (query == "" || query[0] == '?')
    ensures
      var q, p := Path(raw), pd + "/" + d;
      && Invert(p) == Some(p + "/")
      && (Unescape(Resolve(q, RelativePathname(p, p + "/") + query)) == Some(p + "/") <==> LeadsBack(q))
  {
    hide RemoveDots, Path, PathEnd, Merge, AllGood, Resolve, Unescape, LastSlash, AfterLastSlash, DropLast;
    hide RelativePathname, Named, Stands, Free;
    var p := pd + "/" + d;
    NotEndsInSlash(pd, d);
    TrimsBack(p);
    LastRead(pd, d);
    RawEnds(raw);
    AddedNames(p, AfterLastSlash(d));
    AddedReads(raw, pd, d, query);
    Assoc(pd + "/", d, "/");
  }

  /** Both have one. */
  lemma LeadsRemoving(raw: seq<string>, pd: string, d: string, query: string)
    requires Parted(raw, pd, d) && (query == "" || query[0] == '?')
    ensures
      var q, p := Path(raw) + "/", pd + "/" + d;
      && Invert(p + "/") == Some(p)
      && (Unescape(Resolve(q, RelativePathname(p + "/", p) + query)) == Some(p) <==> LeadsBack(q))
  {
    hide RemoveDots, Path, PathEnd, Merge, AllGood, Resolve, Unescape, LastSlash, AfterLastSlash, DropLast;
    hide RelativePathname, Named, Stands, Free;
    var p := pd + "/" + d;
    NamesRemoved(p);
    NamedPart(pd, d);
    RawEnds(raw);
    RemovedReads(raw, pd, d, query);
    StandsWhole(d);
  }

  /** Text that ends in a slash does not stand for itself. */
  lemma StandsWhole(d: string)
    requires d != ""
    ensures Stands(d) <==> !EndsInSlash(d) && Stands(TrimSlash(d))
  {
    assert EndsInSlash(d) ==> '/' in d;
  }

  lemma NamesRemoved(p: string)
    requires p != ""
    ensures Invert(p + "/") == Some(p) && RelativePathname(p + "/", p) == "../" + AfterLastSlash(TrimSlash(p))
  {
    hide LastSlash;
    assert (p + "/")[..|p|] == p && |p + "/"| > 1;
  }

  /** Only the path it is read as has a last slash. */
  lemma LeadsEscaped(raw: seq<string>, pd: string, t: string, query: string)
    requires Parted(raw, pd, t + "/") && (query == "" || query[0] == '?')
    ensures
      var e, p := Path(raw), pd + "/" + (t + "/");
      && Invert(p) == Some(pd + "/" + t)
      && (Unescape(Resolve(e, RelativePathname(p, pd + "/" + t) + query)) == Some(pd + "/" + t) <==> LeadsBack(e))
  {
    hide RemoveDots, PathEnd, Merge, Resolve, Unescape, LastSlash, AfterLastSlash, DropLast, RelativePathname, Named;
    hide Stands, Free, Path, Good, AllGood;
    RawEnds(raw);
    NamesRemoved(pd + "/" + t);
    Assoc(pd + "/", t, "/");
    EscapedSlashReads(raw, pd, t, query);
    assert TrimSlash(t + "/") == t by { assert (t + "/")[..|t|] == t; }
    SlashAtEnd(t);
  }

  lemma SlashAtEnd(x: string)
    ensures EndsInSlash(x + "/")
  {
  }

  lemma NoSlashNoEnd(y: string)
    requires '/' !in y
    ensures !EndsInSlash(y)
  {
  }

  /** The last raw segment of a path, with a last slash or without; it is the whole only where it is alone. */
  lemma RawEnds(raw: seq<string>)
    requires raw != [] && AllGood(raw)
    ensures Named(Path(raw)) == Named(Path(raw) + "/") == raw[|raw| - 1]
    ensures Named(Path(raw)) == Path(raw)[1..] <==> |raw| == 1
    ensures Named(Path(raw) + "/") != (Path(raw) + "/")[1..]
  {
    PathEnds(raw);
    TrimsBack(Path(raw));
    OnlySegment(raw);
    assert Good(raw[|raw| - 1]);
    hide Path, LastSlash;
    var e := Path(raw) + "/";
    assert e[1..][|e| - 2] == '/';
  }

  /** A path of raw segments, read in full. */
  lemma LeadsFrom(e: string, raw: seq<string>, query: string)
    requires raw != [] && AllGood(raw) && (e == Path(raw) || e == Path(raw) + "/") && Unescape(e).Some?
    requires query == "" || query[0] == '?'
    ensures
      var p := Unescape(e).value;
      && Invert(p).Some?
      && (Unescape(Resolve(e, RelativePathname(p, Invert(p).value) + query)) == Invert(p) <==> LeadsBack(e))
  {
    hide Unescape, Resolve, RelativePathname, LeadsBack, Path, AllGood, Invert, Parted, Good;
    if e == Path(raw) {
      LeadsFromBare(raw, query);
    } else {
      TailReads(Path(raw), "/");
      var whole := Unescape(Path(raw)).value;
      var pd, d := Parts(raw, whole);
      LeadsRemoving(raw, pd, d, query);
    }
  }

  lemma WithoutSlash(d: string) returns (t: string)
    requires EndsInSlash(d)
    ensures d == t + "/"
  {
    t := d[..|d| - 1];
  }

  lemma LeadsFromBare(raw: seq<string>, query: string)
    requires raw != [] && AllGood(raw) && Unescape(Path(raw)).Some? && (query == "" || query[0] == '?')
    ensures
      var e, p := Path(raw), Unescape(Path(raw)).value;
      && Invert(p).Some?
      && (Unescape(Resolve(e, RelativePathname(p, Invert(p).value) + query)) == Invert(p) <==> LeadsBack(e))
  {
    hide *;
    var pd, d := Parts(raw, Unescape(Path(raw)).value);
    if EndsInSlash(d) {
      var t := WithoutSlash(d);
      LeadsEscaped(raw, pd, t, query);
    } else {
      LeadsAdding(raw, pd, d, query);
    }
  }

  lemma TwoSlashesLeadBack(e: string, query: string)
    requires e == "//" && (query == "" || query[0] == '?')
    ensures Unescape(e) == Some(e)
    ensures Unescape(Resolve(e, RelativePathname(e, Invert(e).value) + query)) == Invert(e)
    ensures LeadsBack(e)
  {
    hide Unescape, Resolve, RelativePathname, Invert, AfterLastSlash, LastSlash, Free;
    Shrinks(e);
    Shrinks("/");
    Shrinks("");
    assert '%' !in e && '%' !in "/";
    TwoSlashesLeadOut(e, "/", query);
    TrimsToNothing("/");
    assert TrimSlash(e) == "/" by { assert e[..1] == "/"; }
    NamesEmpty(e);
  }

  lemma NamesEmpty(e: string)
    requires e == "//"
    ensures Named(e) == "" && Stands("") && TrimSlash("") == ""
  {
    LastSlashIs("/", 0);
    assert TrimSlash(e) == "/" by { assert e[..1] == "/"; }
    assert "/"[1..] == "";
    hide LastSlash;
  }

  // ---------------------------------------------------------------- redirects made from the routed path

  /** Resolved, a plain segment named once more takes the place of the last raw one. */
  lemma AddedLands(raw: seq<string>, s: string, query: string)
    requires raw != [] && AllGood(raw) && Good(s) && Free(s) && (query == "" || query[0] == '?')
    ensures Resolve(Path(raw), "./" + s + "/" + query) == Path(raw[..|raw| - 1]) + "/" + s + "/"
  {
    hide RemoveDots, Path, PathEnd, Merge, AllGood, Resolve, Good, Free;
    FrontIsGood(raw);
    AddedPath(s, query);
    LeadsBy(Path(raw), "./" + s + "/" + query, "./" + (s + "/"));
    AddingResolves(raw, s + "/");
    Assoc("/", s, "/");
    GoodSegmentPasses(s, "/", Path(raw[..|raw| - 1]));
    SlashEnds(Path(raw[..|raw| - 1]) + "/" + s);
  }

  lemma RemovedLands(raw: seq<string>, s: string, query: string)
    requires raw != [] && AllGood(raw) && Good(s) && Free(s) && (query == "" || query[0] == '?')
    ensures Resolve(Path(raw) + "/", "../" + s + query) == Path(raw[..|raw| - 1]) + "/" + s
  {
    FrontIsGood(raw);
    hide RemoveDots, Path, PathEnd, Merge, AllGood, Resolve, Free;
    RemovedPath(s, query);
    LeadsBy(Path(raw) + "/", "../" + s + query, "../" + s);
    RemovingResolves(raw, s);
    TextLeads(raw[..|raw| - 1], s);
  }

  /** Routing reads no slash, question mark or number sign out of an escape. */
  lemma ReadsNoReserved(raw: string)
    requires Read(Routed, raw).Some?
    ensures '/' !in raw ==> '/' !in Read(Routed, raw).value
    ensures Free(raw) ==> Free(Read(Routed, raw).value)
  {
    hide Pathname.Decoded;
    if '/' !in raw {
      Pathname.DecodingAddsNoReserved(raw, '/');
    }
    if Free(raw) {
      Pathname.DecodingAddsNoReserved(raw, '?');
      Pathname.DecodingAddsNoReserved(raw, '#');
    }
  }

  lemma BeginsRaw(e: string)
    requires Read(Routed, e).Some? && Read(Routed, e).value != "" && Read(Routed, e).value[0] == '/'
    ensures e != "" && e[0] == '/'
  {
  }

  /** The raw segments of a routed path, one for each of its segments. */
  lemma RoutedSegments(e: string, segs: seq<string>) returns (raw: seq<string>)
    requires AllGood(segs) && segs != [] && Read(Routed, e) == Some(Path(segs)) && Free(e)
    ensures raw != [] && AllGood(raw) && Path(raw) == e
    ensures
      var s := segs[|segs| - 1];
      && Good(s) && Free(s)
      && Read(Routed, Path(raw[..|raw| - 1])) == Some(Path(segs[..|segs| - 1]))
      && Read(Routed, s) == Some(s)
  {
    hide Pathname.Decoded, Split, LastSlash, Unescape, Path;
    BeginsWithSlash(segs);
    BeginsRaw(e);
    raw := RawSegments(Routed, e, segs);
    var n, k := |raw| - 1, |segs| - 1;
    var front, last := Path(raw[..n]), raw[n];
    PathEnds(raw);
    assert Good(last) && Good(segs[k]);
    ReadsAround(Routed, front, last);
    var x, y := Read(Routed, front).value, Read(Routed, last).value;
    ReadsNoReserved(last);
    ReadShrinks(Routed, last);
    PathEnds(segs);
    LastRead(x, y);
    assert y == segs[k];
    SameFront(x, Path(segs[..k]), y);
    Pathname.DecodesOnce(last);
    FreeParts(front, last);
  }

  lemma SameFront(x: string, z: string, y: string)
    requires x + "/" + y == z + "/" + y
    ensures x == z
  {
    assert (x + "/" + y)[..|x|] == x && (z + "/" + y)[..|z|] == z;
  }

  lemma FreeParts(x: string, y: string)
    ensures Free(x + "/" + y) ==> Free(y)
  {
    assert forall c :: c in y ==> c in x + "/" + y;
  }

  /** A segment read back is read as itself, whatever is around it. */
  lemma RoutedReads(front: string, x: string, s: string)
    requires Read(Routed, front) == Some(x) && Read(Routed, s) == Some(s)
    ensures Read(Routed, front + "/" + s) == Some(x + "/" + s)
    ensures Read(Routed, front + "/" + s + "/") == Some(x + "/" + s + "/")
  {
    hide Read;
    ReadsAround(Routed, front, s);
    ReadsAround(Routed, front + "/" + s, "");
    ReadNothing(Routed);
    Empty(front + "/" + s + "/");
    Empty(x + "/" + s + "/");
  }

  lemma SlashIsChecked(p: string)
    ensures Pathname.ValidUTF8(p + "/") <==> Pathname.ValidUTF8(p)
  {
    Pathname.ChecksInPieces(p, '/', "");
    Empty(p + ['/']);
  }

  /** From a path as asked for, without or with a last slash, to the other form of the routed path. */
  lemma RoutedLeads(e: string, segs: seq<string>, query: string)
    requires AllGood(segs) && segs != [] && Read(Routed, e) == Some(Path(segs)) && Free(e)
    requires Pathname.ValidUTF8(Path(segs)) && (query == "" || query[0] == '?')
    ensures
      var p := Path(segs);
      && Pathname.Pathname(Resolve(e, RelativePathname(p, p + "/") + query)) == Some(p + "/")
      && Pathname.Pathname(Resolve(e + "/", RelativePathname(p + "/", p) + query)) == Some(p)
  {
    var p, s := Path(segs), segs[|segs| - 1];
    hide Pathname.Decoded, Resolve, RelativePathname, AllGood, Good, Free, LastSlash, AfterLastSlash, DropLast;
    hide Unescape, Path, Pathname.ValidUTF8;
    var raw := RoutedSegments(e, segs);
    PathEnds(segs);
    AddedNames(p, s);
    RemovedNames(p, s);
    AddedLands(raw, s, query);
    RemovedLands(raw, s, query);
    RoutedReads(Path(raw[..|raw| - 1]), Path(segs[..|segs| - 1]), s);
    SlashIsChecked(p);
  }

  /** A slash that is read as one slash and no more. */
  lemma OnlySlash(how: How, front: string)
    requires front != "" && front[0] == '/' && Read(how, front) == Some("/")
    ensures front == "/"
  {
    var rest := front[1..];
    assert front == ['/'] + rest;
    ReadChar(how, '/', rest);
    ReadShrinks(how, rest);
    assert (['/'] + Read(how, rest).value)[1..] == Read(how, rest).value;
  }

  /** A routed path with a last slash was asked for with one. */
  lemma RoutedSlash(e: string, p: string) returns (short: string)
    requires Read(Routed, e) == Some(p + "/") && (p == "" || p[0] == '/')
    ensures e == short + "/" && Read(Routed, short) == Some(p) && (Free(e) ==> Free(short))
  {
    hide Pathname.Decoded, Unescape, LastSlash;
    assert (p + "/")[0] == '/';
    BeginsRaw(e);
    var front, last := CutsLast(e);
    ReadsAround(Routed, front, last);
    var x, y := Read(Routed, front).value, Read(Routed, last).value;
    ReadsNoReserved(last);
    ReadShrinks(Routed, last);
    SlashAtEnd(p);
    NoSlashNoEnd(y);
    if y != "" {
      NotEndsInSlash(x, y);
    }
    assert last == "";
    short := front;
    Empty(front + "/");
    Empty(x + "/");
    assert x == (x + "/")[..|x|] && p == (p + "/")[..|p|];
    assert forall c :: c in short ==> c in e;
  }

  /**
   For the path a request is routed by, the Location always leads the client to a path that is
   routed as the target.
   */
  lemma RoutedRedirectsLead(escaped: string, base: string, policy: string, rawQuery: string)
    requires Free(escaped) && Pathname.Pathname(escaped).Some?
    requires NormalizePath(Pathname.Pathname(escaped).value).Some? && !EndsInSlash(base)
    ensures
      var q := NormalizePath(Pathname.Pathname(escaped).value).value;
      var target := NormalizeRoutePath(q, base, policy);
      target != q ==>
        Pathname.Pathname(Resolve(escaped, RouteNormalization(q, base, policy, rawQuery).value)) == Some(target)
  {
    hide NormalizePath, Resolve, RelativePathname, Path, AllGood, Pathname.Pathname, NormalizeRoutePath, Accepted;
    hide LastSlash, Free, Named;
    var p := Pathname.Pathname(escaped).value;
    var q := NormalizePath(p).value;
    AcceptedExactly(p);
    RedirectsOnce(p, base, policy, rawQuery);
    if NormalizeRoutePath(q, base, policy) != q && p != "" {
      RoutedToOther(escaped, p, NormalizeRoutePath(q, base, policy), if rawQuery != "" then "?" + rawQuery else "");
    } else if p == "" {
      RootStays(base, policy);
    }
  }

  lemma RootStays(base: string, policy: string)
    requires !EndsInSlash(base)
    ensures NormalizeRoutePath("/", base, policy) == "/"
  {
    assert base + "/" == "/" ==> base == "" by { assert (base + "/")[..|base|] == base; }
  }

  lemma RoutedToOther(escaped: string, p: string, target: string, query: string)
    requires Free(escaped) && Pathname.Pathname(escaped) == Some(p) && NormalizePath(p) == Some(p) &&
      Invert(p) == Some(target)
    requires query == "" || query[0] == '?'
    ensures Pathname.Pathname(Resolve(escaped, RelativePathname(p, target) + query)) == Some(target)
  {
    hide NormalizePath, Resolve, RelativePathname, Path, AllGood, Pathname.ValidUTF8, Pathname.Decoded;
    AcceptedExactly(p);
    if p == "//" {
      RoutedTwoSlashes(escaped, p, target, query);
    } else {
      var segs :| Spells(segs, p);
      RoutedFrom(escaped, p, segs, target, query);
    }
  }

  lemma RoutedTwoSlashes(escaped: string, p: string, target: string, query: string)
    requires p == "//" && Pathname.Pathname(escaped) == Some(p) && Invert(p) == Some(target)
    requires query == "" || query[0] == '?'
    ensures Pathname.Pathname(Resolve(escaped, RelativePathname(p, target) + query)) == Some(target)
  {
    hide Resolve, RelativePathname, Pathname.ValidUTF8, Pathname.Decoded, Invert;
    var slash := "/";
    assert slash + slash == p;
    var front := RoutedSlash(escaped, slash);
    BeginsRaw(front);
    OnlySlash(Routed, front);
    TwoSlashesLeadOut(escaped, slash, query);
    RootIsRouted();
  }

  lemma RootIsRouted()
    ensures Pathname.Pathname("/") == Some("/")
  {
    ReadShrinks(Routed, "/");
    SlashIsChecked("");
    Empty("/");
  }

  lemma RoutedFrom(escaped: string, p: string, segs: seq<string>, target: string, query: string)
    requires Free(escaped) && Pathname.Pathname(escaped) == Some(p) && Spells(segs, p) && Invert(p) == Some(target)
    requires query == "" || query[0] == '?'
    ensures Pathname.Pathname(Resolve(escaped, RelativePathname(p, target) + query)) == Some(target)
  {
    PathEnds(segs);
    TrimsBack(Path(segs));
    SlashIsChecked(Path(segs));
    hide Resolve, RelativePathname, Path, AllGood, Pathname.ValidUTF8, Pathname.Decoded, LastSlash, AfterLastSlash;
    hide DropLast, Unescape;
    assert Path(segs) + "/" != "/";
    if p == Path(segs) {
      RoutedLeads(escaped, segs, query);
    } else {
      var short := RoutedSlash(escaped, Path(segs));
      RoutedLeads(short, segs, query);
    }
  }

  // ---------------------------------------------------------------- the exact condition

  /** Whatever is routed can be read in full. */
  lemma {:induction false} RoutedIsReadable(e: string)
    requires Read(Routed, e).Some?
    ensures Unescape(e).Some?
    decreases |e|
  {
    if e != "" {
      RoutedIsReadable(if e[0] == '%' then e[3..] else e[1..]);
    }
  }

  /** The raw form of a path that is routed. */
  lemma RawForm(e: string) returns (raw: seq<string>)
    requires Pathname.Pathname(e).Some? && NormalizePath(Pathname.Pathname(e).value).Some?
    ensures e == "" || e == "/" || e == "//" || (raw != [] && AllGood(raw) && (e == Path(raw) || e == Path(raw) + "/"))
  {
    hide NormalizePath, Path, AllGood, Pathname.ValidUTF8, Pathname.Decoded, Unescape;
    var p := Pathname.Pathname(e).value;
    AcceptedExactly(p);
    ReadShrinks(Routed, e);
    raw := [];
    if p == "" {
    } else if p == "/" {
      BeginsRaw(e);
      OnlySlash(Routed, e);
    } else if p == "//" {
      var slash := "/";
      assert slash + slash == p;
      var front := RoutedSlash(e, slash);
      BeginsRaw(front);
      OnlySlash(Routed, front);
    } else {
      var segs :| Spells(segs, p);
      raw := RawOf(e, p, segs);
    }
  }

  lemma RawOf(e: string, p: string, segs: seq<string>) returns (raw: seq<string>)
    requires Read(Routed, e) == Some(p) && Spells(segs, p)
    ensures raw != [] && AllGood(raw) && (e == Path(raw) || e == Path(raw) + "/")
  {
    hide Path, AllGood, Pathname.Decoded, Unescape;
    BeginsWithSlash(segs);
    if p == Path(segs) {
      BeginsRaw(e);
      raw := RawSegments(Routed, e, segs);
    } else {
      var short := RoutedSlash(e, Path(segs));
      BeginsRaw(short);
      raw := RawSegments(Routed, short, segs);
    }
  }

  /**
   A redirect to the other form of a path decoded in full, with any query, for every request that is
   routed: the client resolves the Location against the path it asked for, and what it then asks for
   is read as the other form if and only if the last raw segment stands for itself.
   */
  lemma LeadsExactly(e: string, query: string)
    requires Pathname.Pathname(e).Some? && NormalizePath(Pathname.Pathname(e).value).Some?
    requires query == "" || query[0] == '?'
    ensures Unescape(e).Some?
    ensures
      var p := Unescape(e).value;
      Invert(p).Some? ==>
        (Unescape(Resolve(e, RelativePathname(p, Invert(p).value) + query)) == Invert(p) <==> LeadsBack(e))
  {
    hide NormalizePath, Unescape, Resolve, RelativePathname, LeadsBack, Path, AllGood, Parted, LastSlash;
    hide Pathname.ValidUTF8, Pathname.Decoded;
    RoutedIsReadable(e);
    var raw := RawForm(e);
    Shrinks("");
    Shrinks("/");
    if e == "//" {
      TwoSlashesLeadBack(e, query);
    } else if e != "" && e != "/" {
      LeadsFrom(e, raw, query);
    }
  }

  // ---------------------------------------------------------------- paths that are misled

  /** One segment, asked for as r and read as d, of which s is the last part. */
  lemma OneSegment(e: string, r: string, d: string)
    requires e == "/" + r && Good(r) && Unescape(r) == Some(d)
    ensures Path([r]) == e && AllGood([r]) && Unescape(e) == Some("/" + d)
  {
    assert [r][..0] == [] && Path([]) == "" && "" + "/" + r == e;
    hide Unescape;
    Around("", r);
    Shrinks("");
    assert "" + "/" + d == "/" + d;
  }

  lemma EscapeIn(a: string, e: string, c: char, b: string)
    requires |e| == 3 && Pathname.Escaped(e) && Pathname.ByteOf(e) == c && '%' !in a && Unescape(b) == Some(b)
    ensures Unescape(a + e + b) == Some(a + [c] + b)
    decreases |a|
  {
    hide Pathname.Escaped, Pathname.ByteOf;
    if a == "" {
      assert a + e + b == e + b && a + [c] + b == [c] + b;
      ReadEscape(Fully, e, b);
    } else {
      EscapeIn(a[1..], e, c, b);
      assert a + e + b == [a[0]] + (a[1..] + e + b);
      assert a + [c] + b == [a[0]] + (a[1..] + [c] + b);
      ReadChar(Fully, a[0], a[1..] + e + b);
    }
  }

  /** A segment with an escape in it, read as d: the redirect names the last part of d. */
  lemma OneSegmentReads(e: string, a: string, esc: string, c: char, b: string, d: string)
    requires e == "/" + (a + esc + b) && d == a + [c] + b && |esc| == 3 && Pathname.Escaped(esc) &&
      Pathname.ByteOf(esc) == c
    requires '%' !in a && '/' !in a && '/' !in b && '/' !in esc && Unescape(b) == Some(b)
    ensures Unescape(e) == Some("/" + d) && Named(e) == a + esc + b && Unescape(Named(e)) == Some(d)
    ensures Path([a + esc + b]) == e && AllGood([a + esc + b])
  {
    var r := a + esc + b;
    EscapeIn(a, esc, c, b);
    hide Pathname.Escaped, Pathname.ByteOf, Unescape, LastSlash, AfterLastSlash, DropLast;
    assert r[|a|..|a| + 3] == esc && |r| >= 3;
    OneSegment(e, r, d);
    PathEnds([r]);
    TrimsBack(e);
    assert [r][|[r]| - 1] == r;
  }

  /** Redirected from one raw segment, with no slash after it: to the last part of what it is read as. */
  lemma OneSegmentLeads(e: string, r: string, s: string)
    requires Path([r]) == e && AllGood([r]) && Good(s) && Free(s)
    ensures Resolve(e, "./" + s + "/") == "/" + s + "/"
  {
    hide Resolve, Path, AllGood, Good, Free;
    AddedLands([r], s, "");
    Empty("./" + s + "/");
    FrontIsEmpty([r]);
    Empty("/");
    Empty("/" + s);
    assert "" + "/" + s + "/" == "/" + s + "/";
  }

  lemma NotLed(e: string, d: string)
    requires Unescape(Named(e)) == Some(d) && !EndsInSlash(d) && !Stands(d)
    ensures !LeadsBack(e)
  {
    hide Unescape, Named, Stands;
  }

  lemma PercentSegment(e: string, p: string, d: string)
    requires e == "/a%2541" && p == "/a%41" && d == "a%41"
    ensures e == "/" + ("a" + "%25" + "41") && d == "a" + ['%'] + "41" && p == "/" + d
    ensures Pathname.Escaped("%25") && Pathname.ByteOf("%25") == '%' && Unescape("41") == Some("41")
    ensures Good(d) && Free(d) && !EndsInSlash(d) && !Stands(d)
  {
    Shrinks("41");
    hide Unescape;
    assert d[1] == '%';
  }

  lemma ReadsAsA(to: string)
    requires to == "/a%41/"
    ensures Unescape(to) == Some("/aA/")
  {
    Shrinks("/");
    EscapeIn("/a", "%41", 'A', "/");
    assert "/a" + "%41" + "/" == to && "/a" + ['A'] + "/" == "/aA/";
    hide Unescape;
  }

  /** `/a%2541` is read as `/a%41`; the Location leads to `/a%41/`, which is read as `/aA/`. */
  lemma EscapedPercentMisleads(e: string, p: string)
    requires e == "/a%2541" && p == "/a%41"
    ensures Unescape(e) == Some(p) && Accepted(p) && Invert(p) == Some(p + "/") && !LeadsBack(e)
    ensures Resolve(e, RelativePathname(p, p + "/")) == "/a%41/" && Unescape("/a%41/") == Some("/aA/")
  {
    hide Unescape, Resolve, RelativePathname, Named, LastSlash, Path, Pathname.Escaped, Pathname.ByteOf, Good;
    hide AllGood, Accepted, Invert, RemoveDots, Free, Stands, EndsInSlash, LeadsBack;
    var d := "a%41";
    PercentSegment(e, p, d);
    OneSegmentReads(e, "a", "%25", '%', "41", d);
    NamesOne(p, d);
    OneSegmentLeads(e, "a" + "%25" + "41", d);
    assert "/" + d + "/" == "/a%41/";
    ReadsAsA("/a%41/");
    NotLed(e, d);
  }

  lemma NamesOne(p: string, d: string)
    requires p == "/" + d && Good(d)
    ensures Accepted(p) && Invert(p) == Some(p + "/") && RelativePathname(p, p + "/") == "./" + d + "/"
  {
    assert [d][..0] == [] && Path([]) == "" && "" + "/" + d == p;
    assert Path([d]) == p && AllGood([d]);
    assert Spells([d], p);
    PathEnds([d]);
    TrimsBack(p);
    hide Path, LastSlash, AfterLastSlash;
    AddedNames(p, d);
  }

  lemma SlashSegment(e: string, p: string, d: string)
    requires e == "/a%2Fb" && p == "/a/b" && d == "a/b"
    ensures e == "/" + ("a" + "%2F" + "b") && d == "a" + ['/'] + "b" && p == "/" + d && p == "/" + "a" + "/" + "b"
    ensures Pathname.Escaped("%2F") && Pathname.ByteOf("%2F") == '/' && Unescape("b") == Some("b") &&
      Unescape("/b/") == Some("/b/")
    ensures Good("a") && Good("b") && Free("b") && !EndsInSlash(d) && !Stands(d)
  {
    Shrinks("b");
    Shrinks("/b/");
    hide Unescape;
    assert d[1] == '/';
  }

  /** `/a%2Fb` is read as `/a/b`; the Location `./b/` leads to `/b/`. */
  lemma EscapedSlashMisleads(e: string, p: string)
    requires e == "/a%2Fb" && p == "/a/b"
    ensures Unescape(e) == Some(p) && Accepted(p) && Invert(p) == Some(p + "/") && !LeadsBack(e)
    ensures RelativePathname(p, p + "/") == "./b/" && Resolve(e, "./b/") == "/b/" && Unescape("/b/") == Some("/b/")
  {
    hide Unescape, Resolve, RelativePathname, Named, LastSlash, Path, Pathname.Escaped, Pathname.ByteOf, Good;
    hide AllGood, Accepted, Invert, RemoveDots, Free, Stands, EndsInSlash, LeadsBack;
    var d := "a/b";
    SlashSegment(e, p, d);
    OneSegmentReads(e, "a", "%2F", '/', "b", d);
    NamesTwo(p, "a", "b");
    OneSegmentLeads(e, "a" + "%2F" + "b", "b");
    assert "./" + "b" + "/" == "./b/" && "/" + "b" + "/" == "/b/";
    NotLed(e, d);
  }

  lemma NamesTwo(p: string, a: string, b: string)
    requires p == "/" + a + "/" + b && Good(a) && Good(b)
    ensures Accepted(p) && Invert(p) == Some(p + "/") && RelativePathname(p, p + "/") == "./" + b + "/"
  {
    var segs := [a, b];
    assert segs[..1] == [a] && [a][..0] == [] && Path([]) == "" && "" + "/" + a == "/" + a;
    assert Path([a]) == "/" + a && Path(segs) == p && AllGood(segs);
    assert Spells(segs, p);
    PathEnds(segs);
    TrimsBack(p);
    hide Path, LastSlash, AfterLastSlash;
    AddedNames(p, b);
  }

  lemma QuestionSegment(e: string, p: string, d: string)
    requires e == "/a%3Fb" && p == "/a?b" && d == "a?b"
    ensures e == "/" + ("a" + "%3F" + "b") && d == "a" + ['?'] + "b" && p == "/" + d
    ensures Pathname.Escaped("%3F") && Pathname.ByteOf("%3F") == '?' && Unescape("b") == Some("b")
    ensures Good(d) && !EndsInSlash(d) && !Stands(d)
  {
    Shrinks("b");
    hide Unescape;
    assert d[1] == '?';
  }

  /** `/a%3Fb` is read as `/a?b`, and the question mark ends the path of the Location. */
  lemma EscapedQuestionMarkMisleads(e: string, p: string)
    requires e == "/a%3Fb" && p == "/a?b"
    ensures Unescape(e) == Some(p) && Accepted(p) && Invert(p) == Some(p + "/") && !LeadsBack(e)
    ensures Unescape(Resolve(e, RelativePathname(p, p + "/"))) != Some(p + "/")
  {
    hide Unescape, Resolve, RelativePathname, Named, LastSlash, Path, Pathname.Escaped, Pathname.ByteOf, Good;
    hide AllGood, Accepted, Invert, RemoveDots, Free, Stands, EndsInSlash, LeadsBack;
    var d := "a?b";
    QuestionSegment(e, p, d);
    OneSegmentReads(e, "a", "%3F", '?', "b", d);
    NamesOne(p, d);
    NotLed(e, d);
    MisledBy(e, "a" + "%3F" + "b", p);
  }

  lemma MisledBy(e: string, r: string, p: string)
    requires Path([r]) == e && AllGood([r]) && Unescape(e) == Some(p) && !LeadsBack(e) && Invert(p).Some?
    ensures Unescape(Resolve(e, RelativePathname(p, Invert(p).value))) != Invert(p)
  {
    hide Unescape, Resolve, RelativePathname, Path, LeadsBack, Invert;
    LeadsFrom(e, [r], "");
    Empty(RelativePathname(p, Invert(p).value));
  }

  lemma LastSlashSegment(e: string, d: string)
    requires e == "/a%2F" && d == "a/"
    ensures e == "/" + ("a" + "%2F" + "") && d == "a" + ['/'] + "" && "/" + d == "/a/" && e[1..] == "a" + "%2F" + ""
    ensures Pathname.Escaped("%2F") && Pathname.ByteOf("%2F") == '/' && Unescape("") == Some("")
    ensures TrimSlash(d) == "a" && Stands("a")
  {
    Shrinks("");
    hide Unescape;
    assert d[..1] == "a";
  }

  /** `/a%2F` is read as `/a/`: in the only segment the escaped slash does no harm. */
  lemma EscapedLastSlashLeads(e: string)
    requires e == "/a%2F"
    ensures Unescape(e) == Some("/a/") && LeadsBack(e)
    ensures Invert("/a/") == Some("/a") && Unescape(Resolve(e, RelativePathname("/a/", "/a"))) == Some("/a")
  {
    hide LeadsBack, RelativePathname, Resolve, Unescape, Named, Pathname.Escaped, Pathname.ByteOf, Path, AllGood;
    hide Good, TrimSlash, Stands;
    var d := "a/";
    LastSlashSegment(e, d);
    OneSegmentReads(e, "a", "%2F", '/', "", d);
    StandsAlone(e, d);
    NamesRemoved("/a");
    assert "/a" + "/" == "/a/";
    LeadsFrom(e, ["a" + "%2F" + ""], "");
    Empty(RelativePathname("/a/", "/a"));
  }

  lemma StandsAlone(e: string, d: string)
    requires e != "" && Unescape(Named(e)) == Some(d) && Stands(TrimSlash(d)) && Named(e) == e[1..]
    ensures LeadsBack(e)
  {
    hide Unescape, Named, Stands, TrimSlash, EndsInSlash;
  }
}
