/**
 The cookies a request writes (event.go) and forwards (fetch.go): a jar keyed by domain, path and
 name, its reads, its write-outs, and the Cookie header of an internal fetch.
 */
module CookieJar {
  import opened Wrappers

  datatype Outcome = Ok | Refused(message: string)

  /** jarCookie. */
  datatype Cookie = Cookie(
    name: string, value: string, path: string, domain: string,
    maxAge: Option<int>, expires: string, httpOnly: bool, secure: bool, sameSite: string,
    partitioned: bool, priority: string, raw: bool)

  /** CookieOptions; a nil pointer is None. */
  datatype Options = Options(
    path: string, domain: string, maxAge: int, expires: string,
    httpOnly: Option<bool>, secure: Option<bool>, sameSite: string)

  predicate Deleted(c: Cookie) {
    c.maxAge == Some(0)
  }

  // ---------------------------------------------------------------- keys

  predicate Unreserved(c: char) {
    '0' <= c <= '9' || 'a' <= c <= 'z' || 'A' <= c <= 'Z' || c in "-_.~"
  }

  function HexDigit(n: nat): char
    requires n < 16
  {
    "0123456789ABCDEF"[n]
  }

  function EscapeChar(c: char): string
    requires c < '\U{100}'
  {
    if Unreserved(c) then [c]
    else if c == ' ' then "+"
    else ['%', HexDigit(c as int / 16), HexDigit(c as int % 16)]
  }

  predicate IsBytes(s: string) {
    forall i :: 0 <= i < |s| ==> s[i] < '\U{100}'
  }

  /** url.QueryEscape. */
  function QueryEscape(s: string): string
    requires IsBytes(s)
  {
    if s == "" then "" else EscapeChar(s[0]) + QueryEscape(s[1..])
  }

  function HexValue(c: char): nat {
    if '0' <= c <= '9' then (c - '0') as nat else if 'A' <= c <= 'F' then (c - 'A') as nat + 10 else 0
  }

  /** url.QueryUnescape, on what QueryEscape writes. */
  function QueryUnescape(s: string): string {
    if s == "" then ""
    else if s[0] == '%' && |s| >= 3 then
      [(16 * HexValue(s[1]) + HexValue(s[2])) as char] + QueryUnescape(s[3..])
    else [if s[0] == '+' then ' ' else s[0]] + QueryUnescape(s[1..])
  }

  lemma HexDigitValue(n: nat)
    requires n < 16
    ensures HexValue(HexDigit(n)) == n && HexDigit(n) != '?'
  {
  }

  lemma UnescapesChar(c: char, rest: string)
    requires c < '\U{100}'
    ensures QueryUnescape(EscapeChar(c) + rest) == [c] + QueryUnescape(rest)
    ensures '?' !in EscapeChar(c)
  {
    var e := EscapeChar(c);
    assert (e + rest)[|e|..] == rest;
    if !Unreserved(c) && c != ' ' {
      HexDigitValue(c as int / 16);
      HexDigitValue(c as int % 16);
      assert (e + rest)[0] == '%' && (e + rest)[1] == e[1] && (e + rest)[2] == e[2];
    }
  }

  lemma {:induction false} EscapingRoundTrips(s: string)
    requires IsBytes(s)
    ensures QueryUnescape(QueryEscape(s)) == s && '?' !in QueryEscape(s)
  {
    if s != "" {
      EscapingRoundTrips(s[1..]);
      UnescapesChar(s[0], QueryEscape(s[1..]));
      assert s == [s[0]] + s[1..];
      hide EscapeChar, QueryUnescape;
    }
  }

  function Key(domain: string, path: string, name: string): string
    requires IsBytes(name)
  {
    domain + path + "?" + QueryEscape(name)
  }

  /** A cut at a character that one side is free of can be made in one place only. */
  lemma SameCut(a: string, b: string, x: string, y: string, c: char)
    requires a + [c] + x == b + [c] + y
    requires (c !in x && c !in y) || (c !in a && c !in b)
    ensures a == b && x == y
  {
    var s := a + [c] + x;
    var t := b + [c] + y;
    assert s[|a|] == c && t[|b|] == c;
    assert forall i :: 0 <= i < |a| ==> s[i] == a[i];
    assert forall i :: 0 <= i < |b| ==> t[i] == b[i];
    assert forall i :: |a| < i < |s| ==> s[i] == x[i - |a| - 1];
    assert forall i :: |b| < i < |t| ==> t[i] == y[i - |b| - 1];
    assert |a| == |b|;
    assert a == s[..|a|] == t[..|b|] == b;
    assert x == s[|a| + 1..] == t[|b| + 1..] == y;
  }

  /** Exactly when two keys coincide: the same name, and the same text of domain and path together. */
  lemma KeysCoincide(d1: string, p1: string, n1: string, d2: string, p2: string, n2: string)
    requires IsBytes(n1) && IsBytes(n2)
    ensures Key(d1, p1, n1) == Key(d2, p2, n2) <==> d1 + p1 == d2 + p2 && n1 == n2
  {
    EscapingRoundTrips(n1);
    EscapingRoundTrips(n2);
    if Key(d1, p1, n1) == Key(d2, p2, n2) {
      SameCut(d1 + p1, d2 + p2, QueryEscape(n1), QueryEscape(n2), '?');
    }
  }

  /** Keys tell cookies apart, where domains hold no slash and paths begin with one. */
  lemma KeysAreInjective(d1: string, p1: string, n1: string, d2: string, p2: string, n2: string)
    requires IsBytes(n1) && IsBytes(n2)
    requires '/' !in d1 && '/' !in d2
    requires p1 != "" && p1[0] == '/' && p2 != "" && p2[0] == '/'
    requires Key(d1, p1, n1) == Key(d2, p2, n2)
    ensures d1 == d2 && p1 == p2 && n1 == n2
  {
    KeysCoincide(d1, p1, n1, d2, p2, n2);
    assert d1 + ['/'] + p1[1..] == d1 + p1;
    assert d2 + ['/'] + p2[1..] == d2 + p2;
    SameCut(d1, d2, p1[1..], p2[1..], '/');
    assert p1 == ['/'] + p1[1..] && p2 == ['/'] + p2[1..];
  }

  lemma SlashPrefix(path: string)
    ensures path != "" ==> (HasPrefix(path, "/") <==> path[0] == '/')
  {
  }

  /** What setInternal stores: only a path of this host's own is resolved, and the value stays as it came. */
  function Received(c: Cookie, hostname: string, pathname: string, resolve: (string, string) -> string): Cookie {
    var own := c.domain == "" || c.domain == hostname;
    c.(path := if own && !HasPrefix(c.path, "/") then resolve(pathname, c.path) else c.path, raw := true)
  }

  /** Of two different cookies that other hosts' answers can set, the second takes the place of the first. */
  lemma RelativePathsCollide(c1: Cookie, c2: Cookie, hostname: string, pathname: string,
                             resolve: (string, string) -> string)
    requires c1.domain == "a" && c1.path == "bc" && c2.domain == "ab" && c2.path == "c"
    requires hostname != "a" && hostname != "ab" && IsBytes(c1.name) && c1.name == c2.name
    ensures
      var r1, r2 := Received(c1, hostname, pathname, resolve), Received(c2, hostname, pathname, resolve);
      r1.domain != r2.domain && Key(r1.domain, r1.path, r1.name) == Key(r2.domain, r2.path, r2.name)
  {
    assert c1.domain + c1.path == "abc" == c2.domain + c2.path;
    KeysCoincide(c1.domain, c1.path, c1.name, c2.domain, c2.path, c2.name);
  }

  // ---------------------------------------------------------------- listings

  predicate Distinct(s: seq<string>) {
    forall i, j :: 0 <= i < j < |s| ==> s[i] != s[j]
  }

  function SetOf(s: seq<string>): set<string> {
    set x | x in s
  }

  lemma {:induction false} DistinctCounts(s: seq<string>)
    requires Distinct(s)
    ensures |SetOf(s)| == |s|
  {
    if s != [] {
      var n := |s| - 1;
      DistinctCounts(s[..n]);
      assert s == s[..n] + [s[n]];
      assert SetOf(s) == SetOf(s[..n]) + {s[n]};
    }
  }

  /** As many distinct keys as there are keys is all of them, each once. */
  lemma ListsEvery(s: seq<string>, keys: set<string>)
    requires Distinct(s) && |s| == |keys| && forall i :: 0 <= i < |s| ==> s[i] in keys
    ensures SetOf(s) == keys
  {
    DistinctCounts(s);
    assert SetOf(s) <= keys;
    assert keys == SetOf(s) + (keys - SetOf(s));
  }

  // ---------------------------------------------------------------- matching

  predicate HasPrefix(s: string, p: string) {
    |p| <= |s| && s[..|p|] == p
  }

  predicate HasSuffix(s: string, p: string) {
    |p| <= |s| && s[|s| - |p|..] == p
  }

  /** cookieDomainMatches. */
  predicate DomainMatches(hostname: string, constraint: string) {
    constraint == "" ||
    var c := if HasPrefix(constraint, ".") then constraint[1..] else constraint;
    hostname == c || HasSuffix(hostname, "." + c)
  }

  /** cookiePathMatches. */
  predicate PathMatches(path: string, constraint: string) {
    constraint == "" ||
    var c := if HasSuffix(constraint, "/") then constraint[..|constraint| - 1] else constraint;
    path == c || HasPrefix(path, c + "/")
  }

  /** A cookie of this name that applies at a host and path. */
  predicate Applies(c: Cookie, name: string, host: string, path: string) {
    c.name == name && DomainMatches(host, c.domain) && PathMatches(path, c.path)
  }

  // ---------------------------------------------------------------- the jar

  /** The order lists each key written exactly once, and each cookie is under its own key. */
  predicate Listed(order: seq<string>, written: map<string, Cookie>) {
    && Distinct(order)
    && (forall i :: 0 <= i < |order| ==> order[i] in written)
    && |order| == |written|
    && (forall k :: k in written ==>
      IsBytes(written[k].name) && Key(written[k].domain, written[k].path, written[k].name) == k)
  }

  /**
   The i-th cookie is the one a read finds: it applies, no other that applies has a longer path, and
   none before it has one as long.
   */
  ghost predicate IsBest(order: seq<string>, written: map<string, Cookie>, name: string, host: string, path: string,
                         i: nat)
    requires forall k :: 0 <= k < |order| ==> order[k] in written
  {
    && i < |order| && Applies(written[order[i]], name, host, path)
    && forall k :: 0 <= k < |order| && Applies(written[order[k]], name, host, path) ==>
         |written[order[k]].path| <= |written[order[i]].path|
         && (k < i ==> |written[order[k]].path| < |written[order[i]].path|)
  }

  ghost predicate NoneApplies(order: seq<string>, written: map<string, Cookie>, name: string, host: string,
                              path: string)
    requires forall k :: 0 <= k < |order| ==> order[k] in written
  {
    forall k :: 0 <= k < |order| ==> !Applies(written[order[k]], name, host, path)
  }

  /** Which cookie a read finds is settled: there is at most one. */
  lemma BestIsUnique(order: seq<string>, written: map<string, Cookie>, name: string, host: string, path: string,
                     i: nat, j: nat)
    requires forall k :: 0 <= k < |order| ==> order[k] in written
    requires IsBest(order, written, name, host, path, i) && IsBest(order, written, name, host, path, j)
    ensures i == j
  {
  }

  // ---------------------------------------------------------------- writing out

  const HTML_DATA_SUFFIX := ".html__data.json"

  /** How a cookie is spelled in a Set-Cookie header for a path; an unusable cookie is empty. */
  type Spelling = (Cookie, string) -> string

  function DataPath(path: string): string
    requires HasSuffix(path, ".html")
  {
    path[..|path| - 5] + HTML_DATA_SUFFIX
  }

  /** The headers of one cookie: its own, and one for the sibling data file of a route in .html. */
  function LinesOf(c: Cookie, spell: Spelling): seq<string> {
    [spell(c, c.path)] + if HasSuffix(c.path, ".html") then [spell(c, DataPath(c.path))] else []
  }

  /** The headers writeTo adds. */
  function Lines(order: seq<string>, written: map<string, Cookie>, spell: Spelling): seq<string>
    requires forall k :: 0 <= k < |order| ==> order[k] in written
  {
    if order == [] then []
    else
      var n := |order| - 1;
      var all := LinesOf(written[order[n]], spell);
      Lines(order[..n], written, spell) + if all[0] == "" then all[1..] else all
  }

  /** A header that has to be there for a cookie to have been written out. */
  ghost predicate Wanted(order: seq<string>, written: map<string, Cookie>, spell: Spelling, line: string)
    requires forall k :: 0 <= k < |order| ==> order[k] in written
  {
    line != "" && exists k :: 0 <= k < |order| && line in LinesOf(written[order[k]], spell)
  }

  /** Every header the jar wants is there. */
  ghost predicate Emitted(order: seq<string>, written: map<string, Cookie>, spell: Spelling, h: seq<string>)
    requires forall k :: 0 <= k < |order| ==> order[k] in written
  {
    forall line :: Wanted(order, written, spell, line) ==> line in h
  }

  lemma {:induction false} LinesEmit(order: seq<string>, written: map<string, Cookie>, spell: Spelling)
    requires forall k :: 0 <= k < |order| ==> order[k] in written
    ensures Emitted(order, written, spell, Lines(order, written, spell))
  {
    if order != [] {
      var n := |order| - 1;
      LinesEmit(order[..n], written, spell);
      forall line | Wanted(order, written, spell, line) ensures line in Lines(order, written, spell) {
        var k :| 0 <= k < |order| && line in LinesOf(written[order[k]], spell);
        if k < n {
          assert order[..n][k] == order[k];
          assert Wanted(order[..n], written, spell, line);
        }
      }
    }
  }

  /** The headers after one more is added unless it is empty or there already. */
  function AddMissing(h: seq<string>, line: string): seq<string> {
    if line == "" || line in h then h else h + [line]
  }

  function AddAllMissing(h: seq<string>, lines: seq<string>): seq<string> {
    if lines == [] then h else AddMissing(AddAllMissing(h, lines[..|lines| - 1]), lines[|lines| - 1])
  }

  /** All the headers of a jar, in order. */
  function AllLines(order: seq<string>, written: map<string, Cookie>, spell: Spelling): seq<string>
    requires forall k :: 0 <= k < |order| ==> order[k] in written
  {
    if order == [] then []
    else AllLines(order[..|order| - 1], written, spell) + LinesOf(written[order[|order| - 1]], spell)
  }

  lemma {:induction false} AllLinesAreWanted(order: seq<string>, written: map<string, Cookie>, spell: Spelling,
                                             line: string)
    requires forall k :: 0 <= k < |order| ==> order[k] in written
    ensures line in AllLines(order, written, spell) && line != "" <==> Wanted(order, written, spell, line)
  {
    if order != [] {
      var n := |order| - 1;
      AllLinesAreWanted(order[..n], written, spell, line);
      assert forall k :: 0 <= k < n ==> order[..n][k] == order[k];
    }
  }

  /** Adding what is missing keeps what was there, adds only what is asked for, and nothing twice. */
  lemma {:induction false} MissingAreAdded(h: seq<string>, lines: seq<string>)
    ensures h <= AddAllMissing(h, lines)
    ensures forall line :: line in lines && line != "" ==> line in AddAllMissing(h, lines)
    ensures forall line :: line in AddAllMissing(h, lines) ==> line in h || line in lines
    ensures Distinct(h) ==> Distinct(AddAllMissing(h, lines))
    ensures (forall line :: line in lines && line != "" ==> line in h) ==> AddAllMissing(h, lines) == h
  {
    if lines != [] {
      var n := |lines| - 1;
      MissingAreAdded(h, lines[..n]);
      assert forall line :: line in lines <==> line in lines[..n] || line == lines[n];
    }
  }

  /** Once a jar has been written out by either way, writing what is missing adds nothing. */
  lemma NothingIsMissingTwice(order: seq<string>, written: map<string, Cookie>, spell: Spelling, h: seq<string>)
    requires forall k :: 0 <= k < |order| ==> order[k] in written
    ensures Emitted(order, written, spell, h) <==> AddAllMissing(h, AllLines(order, written, spell)) == h
    ensures Emitted(order, written, spell, AddAllMissing(h, AllLines(order, written, spell)))
    ensures Emitted(order, written, spell, h + Lines(order, written, spell))
  {
    var lines := AllLines(order, written, spell);
    forall line ensures line in lines && line != "" <==> Wanted(order, written, spell, line) {
      AllLinesAreWanted(order, written, spell, line);
    }
    MissingAreAdded(h, lines);
    LinesEmit(order, written, spell);
  }

  // ---------------------------------------------------------------- Cookie headers

  /** Names in the order they were first met, each with its value. */
  datatype Dict = Dict(names: seq<string>, values: map<string, string>)

  predicate Tidy(d: Dict) {
    && Distinct(d.names)
    && (forall i :: 0 <= i < |d.names| ==> d.names[i] in d.values)
    && |d.names| == |d.values|
  }

  /** A name met again keeps its first value. */
  function KeepFirst(d: Dict, name: string, value: string): Dict {
    if name in d.values then d else Dict(d.names + [name], d.values[name := value])
  }

  /** A name met again takes the new value, in its old place. */
  function TakeLast(d: Dict, name: string, value: string): Dict {
    Dict(if name in d.values then d.names else d.names + [name], d.values[name := value])
  }

  lemma StaysTidy(d: Dict, name: string, value: string)
    requires Tidy(d)
    ensures Tidy(KeepFirst(d, name, value)) && Tidy(TakeLast(d, name, value))
  {
  }

  /** The first index of a character, or -1. */
  function IndexOf(s: string, c: char): (k: int)
    ensures -1 <= k < |s|
    ensures k >= 0 ==> s[k] == c && c !in s[..k]
    ensures k < 0 ==> c !in s
  {
    if s == "" then -1
    else if s[0] == c then 0
    else
      var k := IndexOf(s[1..], c);
      assert s == [s[0]] + s[1..];
      if k < 0 then -1
      else
        assert s[..k + 1] == [s[0]] + s[1..][..k];
        k + 1
  }

  /** strings.Split(s, ";"). */
  function Split(s: string): (parts: seq<string>)
    ensures |parts| > 0
    decreases |s|
  {
    var k := IndexOf(s, ';');
    if k < 0 then [s] else [s[..k]] + Split(s[k + 1..])
  }

  function TrimLeft(s: string): string {
    if s != "" && s[0] in " \t" then TrimLeft(s[1..]) else s
  }

  function TrimRight(s: string): string {
    if s != "" && s[|s| - 1] in " \t" then TrimRight(s[..|s| - 1]) else s
  }

  function Trim(s: string): string {
    TrimRight(TrimLeft(s))
  }

  /** A part of the header: dropped without an equals sign or a name. */
  function WithPart(d: Dict, part: string): Dict {
    var i := IndexOf(part, '=');
    if i < 0 || Trim(part[..i]) == "" then d else KeepFirst(d, Trim(part[..i]), Trim(part[i + 1..]))
  }

  function Parsed(parts: seq<string>): Dict {
    if parts == [] then Dict([], map[]) else WithPart(Parsed(parts[..|parts| - 1]), parts[|parts| - 1])
  }

  lemma {:induction false} ParsedIsTidy(parts: seq<string>)
    ensures Tidy(Parsed(parts))
  {
    if parts != [] {
      var part := parts[|parts| - 1];
      ParsedIsTidy(parts[..|parts| - 1]);
      var i := IndexOf(part, '=');
      if i >= 0 {
        StaysTidy(Parsed(parts[..|parts| - 1]), Trim(part[..i]), Trim(part[i + 1..]));
      }
    }
  }

  /** parseCookieHeader: the first occurrence of a name wins. */
  method ParseCookieHeader(header: string) returns (names: seq<string>, values: map<string, string>)
    ensures Dict(names, values) == Parsed(Split(header)) && Tidy(Dict(names, values))
  {
    names, values := [], map[];
    var parts := Split(header);
    ParsedIsTidy(parts);
    assert parts[..0] == [] && parts[..|parts|] == parts && Parsed([]) == Dict([], map[]);
    hide Parsed, Split, Tidy, WithPart;
    for n := 0 to |parts|
      invariant Dict(names, values) == Parsed(parts[..n])
    {
      ParsedNext(parts, n);
      names, values := ParsePart(names, values, parts[n]);
    }
  }

  lemma ParsedNext(parts: seq<string>, n: nat)
    requires n < |parts|
    ensures Parsed(parts[..n + 1]) == WithPart(Parsed(parts[..n]), parts[n])
  {
    assert parts[..n + 1][..n] == parts[..n];
  }

  method ParsePart(givenNames: seq<string>, givenValues: map<string, string>, part: string)
    returns (names: seq<string>, values: map<string, string>)
    ensures Dict(names, values) == WithPart(Dict(givenNames, givenValues), part)
  {
    hide Trim;
    names, values := givenNames, givenValues;
    var i := IndexOf(part, '=');
    if i < 0 {
      return;
    }
    var name, value := Trim(part[..i]), Trim(part[i + 1..]);
    if name == "" {
      return;
    }
    if name !in values {
      names := names + [name];
      values := values[name := value];
    }
  }

  function Pair(d: Dict, i: nat): string
    requires Tidy(d) && i < |d.names|
  {
    d.names[i] + "=" + d.values[d.names[i]]
  }

  /** The header for a dictionary: its pairs, with "; " between them. */
  function Header(d: Dict, n: nat): string
    requires Tidy(d) && n <= |d.names|
  {
    if n == 0 then ""
    else if n == 1 then Pair(d, 0)
    else Header(d, n - 1) + "; " + Pair(d, n - 1)
  }

  /** Text that can stand in a Cookie header: no semicolon, and no blank at either end. */
  predicate Plain(s: string) {
    ';' !in s && (s != "" ==> s[0] !in " \t" && s[|s| - 1] !in " \t")
  }

  predicate PlainName(name: string) {
    name != "" && Plain(name) && '=' !in name
  }

  predicate PlainDict(d: Dict) {
    && Tidy(d)
    && forall i :: 0 <= i < |d.names| ==> PlainName(d.names[i]) && Plain(d.values[d.names[i]])
  }

  lemma {:induction false} SplitsAtEnd(s: string, t: string)
    requires ';' !in t
    ensures Split(s + ";" + t) == Split(s) + [t]
    decreases |s|
  {
    var all := s + ";" + t;
    var k := IndexOf(s, ';');
    var at := if k < 0 then |s| else k;
    CutsAt(s, t, at);
    SplitStep(all);
    SplitStep(s);
    SplitStep(t);
    assert s[..|s|] == s;
    hide IndexOf, Split;
    if k >= 0 {
      SplitsAtEnd(s[k + 1..], t);
      AssocLines([s[..k]], Split(s[k + 1..]), [t]);
    }
  }

  lemma SplitStep(s: string)
    ensures
      var k := IndexOf(s, ';');
      Split(s) == if k < 0 then [s] else [s[..k]] + Split(s[k + 1..])
  {
  }

  /** Where the first semicolon is once something is put after s. */
  lemma CutsAt(s: string, t: string, at: nat)
    requires ';' !in t && at == if IndexOf(s, ';') < 0 then |s| else IndexOf(s, ';')
    ensures
      var all := s + ";" + t;
      && at < |all| && IndexOf(all, ';') == at && IndexOf(t, ';') < 0
      && all[..at] == s[..at] && all[at + 1..] == if at == |s| then t else s[at + 1..] + ";" + t
  {
    hide IndexOf;
    var all := s + ";" + t;
    forall i | 0 <= i < at ensures all[i] != ';' {
      assert all[i] == s[i] && s[..at][i] == s[i];
    }
    IndexIs(all, ';', at);
    CutsAround(s, t, at);
  }

  lemma CutsAround(s: string, t: string, at: nat)
    requires at <= |s| && (at < |s| ==> s[at] == ';')
    ensures
      var all := s + ";" + t;
      all[..at] == s[..at] && all[at + 1..] == if at == |s| then t else s[at + 1..] + ";" + t
  {
  }

  lemma IndexIs(s: string, c: char, k: nat)
    requires k < |s| && s[k] == c && forall i :: 0 <= i < k ==> s[i] != c
    ensures IndexOf(s, c) == k
  {
    var f := IndexOf(s, c);
    assert s[k] in s;
    assert forall i :: 0 <= i < f ==> s[..f][i] == s[i];
  }

  lemma TrimsPair(name: string, value: string, before: string)
    requires name != "" && Plain(name) && '=' !in name && Plain(value)
    requires before == "" || before == " "
    ensures
      var part := before + name + "=" + value;
      && IndexOf(part, '=') == |before| + |name|
      && Trim(part[..|before| + |name|]) == name && Trim(part[|before| + |name| + 1..]) == value
  {
    var part := before + name + "=" + value;
    IndexIs(part, '=', |before| + |name|);
    assert part[..|before| + |name|] == before + name && part[|before| + |name| + 1..] == value;
    TrimsPlain(name, before);
    TrimsPlain(value, "");
    assert "" + value == value;
  }

  lemma TrimsPlain(s: string, before: string)
    requires Plain(s) && (before == "" || before == " ")
    ensures Trim(before + s) == s
  {
    assert TrimLeft(s) == s && TrimRight(s) == s;
    if before == "" {
      assert before + s == s;
    } else {
      assert (" " + s)[0] == ' ' && (" " + s)[1..] == s;
      assert TrimLeft(" " + s) == TrimLeft(s);
    }
  }

  function Upto(d: Dict, n: nat): Dict
    requires Tidy(d) && n <= |d.names|
  {
    Dict(d.names[..n], map k | k in d.values && k in d.names[..n] :: d.values[k])
  }

  /** A header made of plain names and values parses back to the names and values it was made of. */
  lemma {:induction false} HeaderParsesBack(d: Dict, n: nat)
    requires PlainDict(d) && 0 < n <= |d.names|
    ensures Parsed(Split(Header(d, n))) == Upto(d, n)
  {
    if n == 1 {
      FirstParsesBack(d);
    } else {
      HeaderParsesBack(d, n - 1);
      var part := " " + d.names[n - 1] + "=" + d.values[d.names[n - 1]];
      HeaderNext(d, n, part);
      hide Header, Split, Parsed, Trim, Plain, PlainDict, Upto, Pair;
      SplitsAtEnd(Header(d, n - 1), part);
      NextTrims(d, n - 1, part);
      ParsesOneMore(d, n, Split(Header(d, n - 1)), part);
    }
  }

  lemma HeaderNext(d: Dict, n: nat, part: string)
    requires PlainDict(d) && 1 < n <= |d.names| && part == " " + d.names[n - 1] + "=" + d.values[d.names[n - 1]]
    ensures Header(d, n) == Header(d, n - 1) + ";" + part
    ensures ';' !in part && d.names[n - 1] != ""
  {
    PairHasNoBreak(d, n - 1);
    var before, pair := Header(d, n - 1), Pair(d, n - 1);
    assert part == " " + pair;
    assert before + "; " + pair == before + ";" + (" " + pair);
  }

  lemma NextTrims(d: Dict, i: nat, part: string)
    requires PlainDict(d) && i < |d.names| && part == " " + d.names[i] + "=" + d.values[d.names[i]]
    ensures
      var k := IndexOf(part, '=');
      k >= 0 && Trim(part[..k]) == d.names[i] && Trim(part[k + 1..]) == d.values[d.names[i]]
  {
    TrimsPair(d.names[i], d.values[d.names[i]], " ");
  }

  lemma FirstParsesBack(d: Dict)
    requires PlainDict(d) && 0 < |d.names|
    ensures Parsed(Split(Header(d, 1))) == Upto(d, 1)
  {
    var name, value := d.names[0], d.values[d.names[0]];
    PairHasNoBreak(d, 0);
    assert Split(Pair(d, 0)) == [Pair(d, 0)];
    TrimsPair(name, value, "");
    assert "" + name + "=" + value == Pair(d, 0);
    assert [Pair(d, 0)][..0] == [];
    assert Upto(d, 1) == KeepFirst(Dict([], map[]), name, value);
  }

  lemma PairHasNoBreak(d: Dict, i: nat)
    requires PlainDict(d) && i < |d.names|
    ensures ';' !in Pair(d, i) && ';' !in " " + Pair(d, i)
  {
  }

  lemma ParsesOneMore(d: Dict, n: nat, parts: seq<string>, part: string)
    requires Tidy(d) && 1 < n <= |d.names| && Parsed(parts) == Upto(d, n - 1)
    requires
      var i := IndexOf(part, '=');
      i >= 0 && d.names[n - 1] != "" && Trim(part[..i]) == d.names[n - 1] &&
      Trim(part[i + 1..]) == d.values[d.names[n - 1]]
    ensures Parsed(parts + [part]) == Upto(d, n)
  {
    assert (parts + [part])[..|parts|] == parts;
    assert d.names[n - 1] !in d.names[..n - 1];
    assert d.names[..n] == d.names[..n - 1] + [d.names[n - 1]];
    assert KeepFirst(Upto(d, n - 1), d.names[n - 1], d.values[d.names[n - 1]]) == Upto(d, n);
  }

  lemma {:induction false} TrimmedIsPlain(s: string)
    requires ';' !in s
    ensures Plain(Trim(s)) && forall c :: c in Trim(s) ==> c in s
    decreases |s|
  {
    if s != "" && s[0] in " \t" {
      TrimmedIsPlain(s[1..]);
      assert forall c :: c in s[1..] ==> c in s;
    } else {
      TrimmedEnd(s);
    }
  }

  lemma {:induction false} TrimmedEnd(s: string)
    requires s != "" ==> s[0] !in " \t"
    ensures var t := TrimRight(s);
      && t <= s && (t != "" ==> t[0] !in " \t" && t[|t| - 1] !in " \t")
  {
    if s != "" && s[|s| - 1] in " \t" {
      TrimmedEnd(s[..|s| - 1]);
    }
  }

  lemma {:induction false} PartsHaveNoBreak(s: string)
    ensures forall k :: 0 <= k < |Split(s)| ==> ';' !in Split(s)[k]
    decreases |s|
  {
    var k := IndexOf(s, ';');
    if k >= 0 {
      PartsHaveNoBreak(s[k + 1..]);
    }
  }

  lemma PartIsPlain(d: Dict, part: string)
    requires PlainDict(d) && ';' !in part
    ensures PlainDict(WithPart(d, part))
  {
    var i := IndexOf(part, '=');
    if i >= 0 {
      var name, value := part[..i], part[i + 1..];
      assert forall c :: c in name || c in value ==> c in part;
      TrimmedIsPlain(name);
      TrimmedIsPlain(value);
      hide Trim, Plain, IndexOf, Distinct;
      if Trim(name) != "" {
        StaysPlain(d, Trim(name), Trim(value));
      }
    }
  }

  lemma StaysPlain(d: Dict, name: string, value: string)
    requires PlainDict(d) && PlainName(name) && Plain(value)
    ensures PlainDict(KeepFirst(d, name, value))
  {
    StaysTidy(d, name, value);
    hide Plain, PlainName, Distinct;
  }

  /** Whatever is parsed from a header is plain. */
  lemma {:induction false} ParsedIsPlain(parts: seq<string>)
    requires forall k :: 0 <= k < |parts| ==> ';' !in parts[k]
    ensures PlainDict(Parsed(parts))
  {
    hide WithPart, PlainDict;
    if parts == [] {
      EmptyIsPlain();
    } else {
      ParsedIsPlain(parts[..|parts| - 1]);
      PartIsPlain(Parsed(parts[..|parts| - 1]), parts[|parts| - 1]);
    }
  }

  lemma EmptyIsPlain()
    ensures PlainDict(Dict([], map[]))
  {
  }

  /** A header parses back to the pairs it was made of if and only if they are plain. */
  lemma ParsesBackExactly(d: Dict)
    requires Tidy(d)
    ensures Parsed(Split(Header(d, |d.names|))) == d <==> PlainDict(d)
  {
    var parts := Split(Header(d, |d.names|));
    PartsHaveNoBreak(Header(d, |d.names|));
    ParsedIsPlain(parts);
    if PlainDict(d) {
      if d.names == [] {
        assert Header(d, 0) == "" && parts == [""] && [""][..0] == [];
        assert Parsed(parts) == Dict([], map[]);
        assert d.values == map[];
      } else {
        HeaderParsesBack(d, |d.names|);
        UptoAll(d);
      }
    }
  }

  lemma UptoAll(d: Dict)
    requires Tidy(d)
    ensures Upto(d, |d.names|) == d
  {
    forall name ensures name in d.names <==> name in d.values {
      InNames(d, name);
    }
    assert d.names[..|d.names|] == d.names;
  }

  // ---------------------------------------------------------------- forwarding

  /** encodeURIComponent keeps these. */
  predicate Component(c: char) {
    '0' <= c <= '9' || 'a' <= c <= 'z' || 'A' <= c <= 'Z' || c in "-_.!~*'()"
  }

  function EncodeURIComponent(s: string): string {
    if s == "" then ""
    else
      var c := s[|s| - 1];
      EncodeURIComponent(s[..|s| - 1])
      + if Component(c) then [c] else ['%', HexDigit(c as int / 16 % 16), HexDigit(c as int % 16)]
  }

  /** The value a cookie is forwarded with. */
  function Sent(c: Cookie): string {
    if c.raw then c.value else EncodeURIComponent(c.value)
  }

  predicate AppliesAt(c: Cookie, host: string, path: string) {
    DomainMatches(host, c.domain) && PathMatches(path, c.path)
  }

  /** The last cookie, in the order of their keys, that applies at a destination under a name. */
  function LastApplying(order: seq<string>, written: map<string, Cookie>, host: string, path: string,
                        name: string): Option<Cookie>
    requires forall k :: 0 <= k < |order| ==> order[k] in written
  {
    if order == [] then None
    else
      var c := written[order[|order| - 1]];
      if c.name == name && AppliesAt(c, host, path) then Some(c)
      else LastApplying(order[..|order| - 1], written, host, path, name)
  }

  /** What the user agent sent, with the cookies this request wrote put over it. */
  function Overlaid(received: Dict, order: seq<string>, written: map<string, Cookie>, host: string, path: string): Dict
    requires forall k :: 0 <= k < |order| ==> order[k] in written
  {
    if order == [] then received
    else
      var before := Overlaid(received, order[..|order| - 1], written, host, path);
      var c := written[order[|order| - 1]];
      if AppliesAt(c, host, path) then TakeLast(before, c.name, Sent(c)) else before
  }

  function OverlaidAll(d: Dict, explicit: Dict, n: nat): Dict
    requires Tidy(explicit) && n <= |explicit.names|
  {
    if n == 0 then d
    else TakeLast(OverlaidAll(d, explicit, n - 1), explicit.names[n - 1], explicit.values[explicit.names[n - 1]])
  }

  lemma {:induction false} OverlaidIs(received: Dict, order: seq<string>, written: map<string, Cookie>, host: string,
                                      path: string, name: string)
    requires Tidy(received) && forall k :: 0 <= k < |order| ==> order[k] in written
    ensures Tidy(Overlaid(received, order, written, host, path))
    ensures
      var d, c := Overlaid(received, order, written, host, path), LastApplying(order, written, host, path, name);
      && (name in d.values <==> c.Some? || name in received.values)
      && (name in d.values ==> d.values[name] == if c.Some? then Sent(c.value) else received.values[name])
  {
    if order != [] {
      var n := |order| - 1;
      OverlaidIs(received, order[..n], written, host, path, name);
      var c := written[order[n]];
      StaysTidy(Overlaid(received, order[..n], written, host, path), c.name, Sent(c));
      hide AppliesAt, Sent, Tidy;
    }
  }

  lemma {:induction false} OverlaidAllIs(d: Dict, explicit: Dict, n: nat, name: string)
    requires Tidy(d) && Tidy(explicit) && n <= |explicit.names|
    ensures Tidy(OverlaidAll(d, explicit, n))
    ensures
      var out := OverlaidAll(d, explicit, n);
      && (name in out.values <==> name in explicit.names[..n] || name in d.values)
      && (name in out.values ==>
        out.values[name] == if name in explicit.names[..n] then explicit.values[name] else d.values[name])
  {
    hide Distinct;
    if n > 0 {
      OverlaidAllIs(d, explicit, n - 1, name);
      var own := explicit.names[n - 1];
      StaysTidy(OverlaidAll(d, explicit, n - 1), own, explicit.values[own]);
      assert explicit.names[..n] == explicit.names[..n - 1] + [own];
      assert name in explicit.names[..n] <==> name in explicit.names[..n - 1] || name == own;
    }
  }

  /** The value a forwarded header gives a name: the fetch's own, else the last written, else received. */
  function Precedence(received: Dict, last: Option<Cookie>, explicit: Dict, name: string): Option<string> {
    if name in explicit.values then Some(explicit.values[name])
    else if last.Some? then Some(Sent(last.value))
    else if name in received.values then Some(received.values[name])
    else None
  }

  /** A cookie that can stand in a Cookie header; an encoded value always can. */
  predicate Forwardable(c: Cookie) {
    PlainName(c.name) && (c.raw ==> Plain(c.value))
  }

  lemma {:induction false} EncodedIsPlain(s: string)
    ensures forall i :: 0 <= i < |EncodeURIComponent(s)| ==> EncodeURIComponent(s)[i] !in "; \t"
  {
    if s != "" {
      EncodedIsPlain(s[..|s| - 1]);
    }
  }

  lemma {:induction false} LastHasItsName(order: seq<string>, written: map<string, Cookie>, host: string,
                                          path: string, name: string)
    requires forall k :: 0 <= k < |order| ==> order[k] in written
    ensures var last := LastApplying(order, written, host, path, name);
      last.Some? ==> last.value.name == name
  {
    if order != [] {
      LastHasItsName(order[..|order| - 1], written, host, path, name);
    }
  }

  /** Every cookie that is forwarded from the jar can stand in a header. */
  ghost predicate AllForwardable(order: seq<string>, written: map<string, Cookie>, host: string, path: string,
                                 explicit: Dict)
    requires forall k :: 0 <= k < |order| ==> order[k] in written
  {
    forall name :: name !in explicit.values && LastApplying(order, written, host, path, name).Some? ==>
      Forwardable(LastApplying(order, written, host, path, name).value)
  }

  /** What is forwarded is plain if and only if what comes from the jar can be forwarded. */
  lemma ForwardedIsPlain(pairs: Dict, received: Dict, explicit: Dict, order: seq<string>,
                         written: map<string, Cookie>, host: string, path: string)
    requires Tidy(pairs) && PlainDict(received) && PlainDict(explicit)
    requires forall k :: 0 <= k < |order| ==> order[k] in written
    requires forall name ::
      (if name in pairs.values then Some(pairs.values[name]) else None) ==
      Precedence(received, LastApplying(order, written, host, path, name), explicit, name)
    ensures PlainDict(pairs) <==> AllForwardable(order, written, host, path, explicit)
  {
    hide LastApplying, Plain, EncodeURIComponent, Distinct;
    forall name
      ensures name in pairs.values ==> name in pairs.names
      ensures name in pairs.values ==> (PlainName(name) && Plain(pairs.values[name]) <==>
        name in explicit.values || LastApplying(order, written, host, path, name).None?
          || Forwardable(LastApplying(order, written, host, path, name).value))
    {
      InNames(pairs, name);
      InNames(received, name);
      InNames(explicit, name);
      LastHasItsName(order, written, host, path, name);
      if LastApplying(order, written, host, path, name).Some? {
        SentIsPlain(LastApplying(order, written, host, path, name).value);
      }
    }
    assert PlainDict(pairs) <==> forall name :: name in pairs.values ==> PlainName(name) && Plain(pairs.values[name]);
  }

  lemma HeadersArePlain(a: string, b: string)
    ensures PlainDict(Parsed(Split(a))) && PlainDict(Parsed(Split(b)))
  {
    hide Split, Parsed, PlainDict;
    PartsHaveNoBreak(a);
    PartsHaveNoBreak(b);
    ParsedIsPlain(Split(a));
    ParsedIsPlain(Split(b));
  }

  lemma SentIsPlain(c: Cookie)
    ensures Plain(Sent(c)) <==> !c.raw || Plain(c.value)
  {
    EncodedIsPlain(c.value);
  }

  /** What is overlaid in turn is what precedence gives each name. */
  lemma OverlaidByPrecedence(received: Dict, overlaid: Dict, explicit: Dict, order: seq<string>,
                             written: map<string, Cookie>,
                             host: string, path: string)
    requires Tidy(received) && Tidy(explicit) && forall k :: 0 <= k < |order| ==> order[k] in written
    requires overlaid == Overlaid(received, order, written, host, path) && Tidy(overlaid)
    ensures
      var pairs := OverlaidAll(overlaid, explicit, |explicit.names|);
      forall name ::
        (if name in pairs.values then Some(pairs.values[name]) else None) ==
        Precedence(received, LastApplying(order, written, host, path, name), explicit, name)
  {
    hide Sent, AppliesAt, Tidy, Overlaid, OverlaidAll, LastApplying;
    var pairs := OverlaidAll(overlaid, explicit, |explicit.names|);
    forall name
      ensures (if name in pairs.values then Some(pairs.values[name]) else None) ==
              Precedence(received, LastApplying(order, written, host, path, name), explicit, name)
    {
      OverlaidIs(received, order, written, host, path, name);
      OverlaidAllIs(overlaid, explicit, |explicit.names|, name);
      assert explicit.names[..|explicit.names|] == explicit.names;
      InNames(explicit, name);
    }
  }

  class Jar {
    const received: map<string, string>
    const hostname: string
    const pathname: string
    const secureDefault: bool

    var written: map<string, Cookie>
    var order: seq<string>

    ghost predicate Valid()
      reads this
    {
      Listed(order, written)
    }

    constructor (received: map<string, string>, hostname: string, pathname: string, secureDefault: bool)
      ensures Valid() && order == []
      ensures this.received == received && this.hostname == hostname && this.pathname == pathname
      ensures this.secureDefault == secureDefault
    {
      this.received, this.hostname, this.pathname, this.secureDefault := received, hostname, pathname, secureDefault;
      written, order := map[], [];
    }

    /** get: the most specific cookie written, a deletion hiding the browser's own, or else that. */
    method Get(name: string) returns (r: Option<string>)
      requires Valid()
      ensures forall i: nat :: IsBest(order, written, name, hostname, pathname, i) ==>
        r == if Deleted(written[order[i]]) then None else Some(written[order[i]].value)
      ensures NoneApplies(order, written, name, hostname, pathname) ==>
        r == if name in received then Some(received[name]) else None
      ensures NoneApplies(order, written, name, hostname, pathname)
        || exists i: nat :: IsBest(order, written, name, hostname, pathname, i)
    {
      hide Applies, Deleted, Key, Distinct, IsBytes;
      var best: Option<Cookie> := None;
      ghost var at: nat := 0;
      for n := 0 to |order|
        invariant best.None? ==> forall k :: 0 <= k < n ==> !Applies(written[order[k]], name, hostname, pathname)
        invariant best.Some? ==>
          at < n && best.value == written[order[at]] && Applies(best.value, name, hostname, pathname)
        invariant best.Some? ==> forall k :: 0 <= k < n && Applies(written[order[k]], name, hostname, pathname) ==>
          |written[order[k]].path| <= |best.value.path| && (k < at ==> |written[order[k]].path| < |best.value.path|)
      {
        var c := written[order[n]];
        if Applies(c, name, hostname, pathname) && (best.None? || |c.path| > |best.value.path|) {
          best := Some(c);
          at := n;
        }
      }
      if best.Some? {
        assert IsBest(order, written, name, hostname, pathname, at);
        forall i: nat | IsBest(order, written, name, hostname, pathname, i) ensures i == at {
          BestIsUnique(order, written, name, hostname, pathname, i, at);
        }
        return if Deleted(best.value) then None else Some(best.value.value);
      }
      return if name in received then Some(received[name]) else None;
    }

    method Store(c: Cookie)
      requires Valid() && IsBytes(c.name)
      modifies this
      ensures Valid()
      ensures
        var key := Key(c.domain, c.path, c.name);
        && written == old(written)[key := c]
        && order == if key in old(written) then old(order) else old(order) + [key]
    {
      var key := Key(c.domain, c.path, c.name);
      if key !in written {
        order := order + [key];
      }
      written := written[key := c];
    }

    /** set, and delete where del: only an empty name or a relative path is refused. */
    method Set(name: string, value: string, opts: Options, del: bool) returns (r: Outcome)
      requires Valid() && IsBytes(name)
      modifies this
      ensures Valid()
      ensures r.Refused? <==> name == "" || (opts.path != "" && opts.path[0] != '/')
      ensures r.Refused? ==> unchanged(this)
      ensures r.Ok? ==>
        var c := Written(name, value, opts, del, secureDefault);
        var key := Key(c.domain, c.path, name);
        && c.path != "" && c.path[0] == '/'
        && written == old(written)[key := c]
        && order == if key in old(written) then old(order) else old(order) + [key]
    {
      hide Valid, Key, IsBytes, HasPrefix;
      SlashPrefix(opts.path);
      if name == "" {
        return Refused("cookie name must not be empty");
      }
      if opts.path != "" && !HasPrefix(opts.path, "/") {
        return Refused("cookies set in remote functions must have an absolute path");
      }
      Store(Written(name, value, opts, del, secureDefault));
      return Ok;
    }

    /** setInternal: exactly what is received is stored, in its key's place. */
    method SetInternal(cookie: Cookie, resolve: (string, string) -> string)
      requires Valid() && IsBytes(cookie.name)
      modifies this
      ensures Valid()
      ensures
        var c := Received(cookie, hostname, pathname, resolve);
        var key := Key(c.domain, c.path, c.name);
        && written == old(written)[key := c]
        && order == if key in old(written) then old(order) else old(order) + [key]
    {
      var c := cookie;
      if c.domain == "" || c.domain == hostname {
        if !HasPrefix(c.path, "/") {
          c := c.(path := resolve(pathname, c.path));
        }
      }
      c := c.(raw := true);
      Store(c);
    }

    lemma AllWritten()
      requires Valid()
      ensures forall k :: 0 <= k < |order| ==> order[k] in written
    {
    }

    /**
     requestHeader, as the pairs it writes: each name once, with the value of highest precedence. The
     received header is the parent's Cookie headers joined, and explicit the fetch's own.
     */
    method RequestHeader(receivedHeader: string, host: string, path: string, explicit: string)
      returns (header: string, pairs: Dict)
      requires Valid()
      ensures Tidy(pairs) && header == Header(pairs, |pairs.names|)
      ensures forall name ::
        (if name in pairs.values then Some(pairs.values[name]) else None) ==
        Precedence(Parsed(Split(receivedHeader)), LastApplying(order, written, host, path, name),
          Parsed(Split(explicit)), name)
      ensures Parsed(Split(header)) == pairs <==> AllForwardable(order, written, host, path, Parsed(Split(explicit)))
    {
      hide Valid, Sent, AppliesAt, Tidy, Distinct, PlainDict, Overlaid, OverlaidAll, Precedence, LastApplying, Split;
      hide Parsed, Header, AllForwardable;
      AllWritten();
      var names, values := ParseCookieHeader(receivedHeader);
      ghost var received := Dict(names, values);
      names, values := Overlay(names, values, host, path);
      ghost var overlaid := Dict(names, values);
      var explicitNames, explicitValues := ParseCookieHeader(explicit);
      ghost var own := Dict(explicitNames, explicitValues);
      names, values := OverlayAll(names, values, explicitNames, explicitValues);
      pairs := Dict(names, values);
      header := JoinPairs(names, values);
      OverlaidByPrecedence(received, overlaid, own, order, written, host, path);
      HeadersArePlain(receivedHeader, explicit);
      ParsesBackExactly(pairs);
      ForwardedIsPlain(pairs, received, own, order, written, host, path);
    }

    /** The loop over the cookies written. */
    method Overlay(givenNames: seq<string>, givenValues: map<string, string>, host: string, path: string)
      returns (names: seq<string>, values: map<string, string>)
      requires Valid() && Tidy(Dict(givenNames, givenValues))
      ensures Dict(names, values) == Overlaid(Dict(givenNames, givenValues), order, written, host, path)
      ensures Tidy(Dict(names, values))
    {
      names, values := givenNames, givenValues;
      for n := 0 to |order|
        invariant Dict(names, values) == Overlaid(Dict(givenNames, givenValues), order[..n], written, host, path)
      {
        var c := written[order[n]];
        assert order[..n + 1][..n] == order[..n];
        if !DomainMatches(host, c.domain) || !PathMatches(path, c.path) {
          continue;
        }
        if c.name !in values {
          names := names + [c.name];
        }
        values := values[c.name := Sent(c)];
      }
      assert order[..|order|] == order;
      OverlaidIs(Dict(givenNames, givenValues), order, written, host, path, "");
    }

    /** writeTo: every cookie, in the order their keys were first written. */
    method WriteTo(h: seq<string>, spell: Spelling) returns (out: seq<string>)
      requires Valid()
      ensures out == h + Lines(order, written, spell)
      ensures Emitted(order, written, spell, out)
    {
      hide Valid, Lines, LinesOf, DataPath, Emitted, Applies, Key, IsBytes, HasSuffix;
      AllWritten();
      NothingIsMissingTwice(order, written, spell, h);
      NoLines(written, spell);
      out := h;
      assert h + [] == h && order[..0] == [] && order[..|order|] == order;
      for n := 0 to |order|
        invariant out == h + Lines(order[..n], written, spell)
      {
        LinesNext(order, written, spell, n);
        out := WriteCookie(written[order[n]], spell, h, Lines(order[..n], written, spell), out);
      }
    }

    static method WriteCookie(c: Cookie, spell: Spelling, ghost h: seq<string>, ghost before: seq<string>,
                              was: seq<string>)
      returns (out: seq<string>)
      requires was == h + before
      ensures out == h + (before + if LinesOf(c, spell)[0] == "" then LinesOf(c, spell)[1..] else LinesOf(c, spell))
    {
      ghost var lines := LinesOf(c, spell);
      ghost var kept := if lines[0] == "" then lines[1..] else lines;
      out := was;
      var v := spell(c, c.path);
      if v != "" {
        out := out + [v];
      }
      if HasSuffix(c.path, ".html") {
        out := out + [spell(c, DataPath(c.path))];
      }
      assert out == was + kept;
      AssocLines(h, before, kept);
    }

    /** writeMissingTo: what is there already is not added again. */
    method WriteMissingTo(h: seq<string>, spell: Spelling) returns (out: seq<string>)
      requires Valid()
      ensures out == AddAllMissing(h, AllLines(order, written, spell))
      ensures h <= out && (Distinct(h) ==> Distinct(out))
      ensures Emitted(order, written, spell, out)
      ensures Emitted(order, written, spell, h) ==> out == h
    {
      NothingIsMissingTwice(order, written, spell, h);
      MissingAreAdded(h, AllLines(order, written, spell));
      hide Emitted, AllLines, AddAllMissing, Listed;
      out := AddCookies(h, spell);
    }

    /** The loop over the cookies. */
    method AddCookies(h: seq<string>, spell: Spelling) returns (out: seq<string>)
      requires forall k :: 0 <= k < |order| ==> order[k] in written
      ensures out == AddAllMissing(h, AllLines(order, written, spell))
    {
      var have := SetOf(h);
      out := h;
      assert AllLines([], written, spell) == [] && AddAllMissing(h, []) == h;
      assert order[..0] == [] && order[..|order|] == order;
      hide AllLines, AddAllMissing, AddMissing, LinesOf, SetOf;
      for n := 0 to |order|
        invariant out == AddAllMissing(h, AllLines(order[..n], written, spell))
        invariant have == SetOf(out)
      {
        AllLinesNext(order, written, spell, n);
        out, have := AddCookie(h, AllLines(order[..n], written, spell), written[order[n]], spell, out, have);
      }
    }

    /** What one cookie is missing. */
    static method AddCookie(ghost h: seq<string>, ghost before: seq<string>, c: Cookie, spell: Spelling,
                            was: seq<string>, had: set<string>)
      returns (out: seq<string>, have: set<string>)
      requires was == AddAllMissing(h, before) && had == SetOf(was)
      ensures out == AddAllMissing(h, before + LinesOf(c, spell)) && have == SetOf(out)
    {
      AddsLines(h, before, c, spell);
      hide AddAllMissing, AddMissing, LinesOf, SetOf;
      out, have := AddLine(was, had, spell(c, c.path));
      if HasSuffix(c.path, ".html") {
        out, have := AddLine(out, have, spell(c, DataPath(c.path)));
      }
    }

    static method AddLine(out: seq<string>, have: set<string>, v: string) returns (more: seq<string>, had: set<string>)
      requires have == SetOf(out)
      ensures more == AddMissing(out, v)
      ensures had == SetOf(more)
    {
      if v == "" || v in have {
        return out, have;
      }
      assert SetOf(out + [v]) == SetOf(out) + {v} by {
        assert forall x :: x in out + [v] <==> x in out || x == v;
      }
      return out + [v], have + {v};
    }
  }

  lemma InNames(d: Dict, name: string)
    requires Tidy(d)
    ensures name in d.names <==> name in d.values
  {
    ListsEvery(d.names, d.values.Keys);
    assert name in SetOf(d.names) <==> name in d.names;
  }

  /** The loop over the fetch's own cookies. */
  method OverlayAll(givenNames: seq<string>, givenValues: map<string, string>, explicitNames: seq<string>,
                    explicitValues: map<string, string>)
    returns (names: seq<string>, values: map<string, string>)
    requires Tidy(Dict(givenNames, givenValues)) && Tidy(Dict(explicitNames, explicitValues))
    ensures Dict(names, values) == OverlaidAll(Dict(givenNames, givenValues), Dict(explicitNames, explicitValues),
      |explicitNames|)
    ensures Tidy(Dict(names, values))
  {
    ghost var given, explicit := Dict(givenNames, givenValues), Dict(explicitNames, explicitValues);
    names, values := givenNames, givenValues;
    for n := 0 to |explicitNames|
      invariant Dict(names, values) == OverlaidAll(given, explicit, n)
    {
      var name := explicitNames[n];
      if name !in values {
        names := names + [name];
      }
      values := values[name := explicitValues[name]];
    }
    OverlaidAllIs(given, explicit, |explicitNames|, "");
  }

  method JoinPairs(names: seq<string>, values: map<string, string>) returns (header: string)
    requires Tidy(Dict(names, values))
    ensures header == Header(Dict(names, values), |names|)
  {
    header := "";
    for n := 0 to |names|
      invariant header == Header(Dict(names, values), n)
    {
      var pair := names[n] + "=" + values[names[n]];
      header := if n == 0 then pair else header + "; " + pair;
    }
  }

  lemma AssocLines(a: seq<string>, b: seq<string>, c: seq<string>)
    ensures a + b + c == a + (b + c)
  {
  }

  lemma NoLines(written: map<string, Cookie>, spell: Spelling)
    ensures Lines([], written, spell) == []
  {
  }

  lemma LinesNext(order: seq<string>, written: map<string, Cookie>, spell: Spelling, n: nat)
    requires n < |order| && forall k :: 0 <= k < |order| ==> order[k] in written
    ensures Lines(order[..n + 1], written, spell) ==
      var all := LinesOf(written[order[n]], spell);
      Lines(order[..n], written, spell) + if all[0] == "" then all[1..] else all
  {
    assert order[..n + 1][..n] == order[..n];
  }

  lemma AllLinesNext(order: seq<string>, written: map<string, Cookie>, spell: Spelling, n: nat)
    requires n < |order| && forall k :: 0 <= k < |order| ==> order[k] in written
    ensures
      AllLines(order[..n + 1], written, spell) ==
      AllLines(order[..n], written, spell) + LinesOf(written[order[n]], spell)
  {
    assert order[..n + 1][..n] == order[..n];
  }

  lemma AddsLines(h: seq<string>, before: seq<string>, c: Cookie, spell: Spelling)
    ensures AddAllMissing(h, before + LinesOf(c, spell)) ==
      var one := AddMissing(AddAllMissing(h, before), spell(c, c.path));
      if HasSuffix(c.path, ".html") then AddMissing(one, spell(c, DataPath(c.path))) else one
  {
    var first := [spell(c, c.path)];
    assert (before + first)[..|before|] == before;
    if HasSuffix(c.path, ".html") {
      var all := before + LinesOf(c, spell);
      assert all[..|all| - 1] == before + first;
    }
  }

  /** The cookie set makes of its options. */
  function Written(name: string, value: string, opts: Options, del: bool, secureDefault: bool): Cookie {
    Cookie(
      name, if del then "" else value,
      if opts.path == "" then "/" else opts.path, opts.domain,
      if del then Some(0) else if opts.maxAge != 0 then Some(opts.maxAge) else None,
      opts.expires,
      if opts.httpOnly.Some? then opts.httpOnly.value else true,
      if opts.secure.Some? then opts.secure.value else secureDefault,
      if opts.sameSite == "Strict" || opts.sameSite == "None" then opts.sameSite else "Lax",
      false, "", false)
  }
}
