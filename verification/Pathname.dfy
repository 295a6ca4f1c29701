/**
 Decoding a pathname for routing (routing_path.go): percent escapes are undone except `%25` and
 those of reserved characters, so that nothing is ever decoded twice. Text is a sequence of bytes,
 one char each.
 */
module Pathname {
  import opened Wrappers

  const RESERVED := ";/?:@&=+$,#"

  // ---------------------------------------------------------------- escapes

  predicate IsHex(c: char) {
    '0' <= c <= '9' || 'a' <= c <= 'f' || 'A' <= c <= 'F'
  }

  function Unhex(c: char): (n: nat)
    requires IsHex(c)
    ensures n < 16
  {
    if c <= '9' then (c - '0') as nat
    else if c <= 'F' then (c - 'A') as nat + 10
    else (c - 'a') as nat + 10
  }

  /** s begins with a percent sign and two hex digits. */
  predicate Escaped(s: string) {
    |s| >= 3 && s[0] == '%' && IsHex(s[1]) && IsHex(s[2])
  }

  function ByteOf(s: string): char
    requires Escaped(s)
  {
    (16 * Unhex(s[1]) + Unhex(s[2])) as char
  }

  /** An escape that survives: of the percent sign itself, or of a reserved character. */
  predicate Survives(s: string)
    requires Escaped(s)
  {
    s[..3] == "%25" || ByteOf(s) in RESERVED
  }

  /** percentDecode, in full: a percent sign that begins no escape is kept. */
  function PercentDecode(s: string): string {
    if s == "" then ""
    else if Escaped(s) then [ByteOf(s)] + PercentDecode(s[3..])
    else [s[0]] + PercentDecode(s[1..])
  }

  // ---------------------------------------------------------------- UTF-8

  predicate Continues(s: string, k: nat, lo: char, hi: char) {
    k < |s| && lo <= s[k] <= hi
  }

  /** The length of the sequence s begins with, or 0 where it is malformed (section 3 of RFC 3629). */
  function SequenceLength(s: string): (n: nat)
    requires s != ""
    ensures n <= |s|
  {
    var c := s[0];
    if c < '\U{80}' then 1
    else if '\U{c2}' <= c <= '\U{df}' then if Continues(s, 1, '\U{80}', '\U{bf}') then 2 else 0
    else if '\U{e0}' <= c <= '\U{ef}' then
      var lo := if c == '\U{e0}' then '\U{a0}' else '\U{80}';
      var hi := if c == '\U{ed}' then '\U{9f}' else '\U{bf}';
      if Continues(s, 1, lo, hi) && Continues(s, 2, '\U{80}', '\U{bf}') then 3 else 0
    else if '\U{f0}' <= c <= '\U{f4}' then
      var lo := if c == '\U{f0}' then '\U{90}' else '\U{80}';
      var hi := if c == '\U{f4}' then '\U{8f}' else '\U{bf}';
      if Continues(s, 1, lo, hi) && Continues(s, 2, '\U{80}', '\U{bf}') &&
        Continues(s, 3, '\U{80}', '\U{bf}') then 4 else 0
    else 0
  }

  predicate ValidUTF8(s: string)
    decreases |s|
  {
    s == "" || (SequenceLength(s) > 0 && ValidUTF8(s[SequenceLength(s)..]))
  }

  /** A byte below 0x80 ends whatever came before it, so text may be checked in pieces around it. */
  lemma {:induction false} ChecksInPieces(a: string, c: char, b: string)
    requires c < '\U{80}'
    ensures ValidUTF8(a + [c] + b) <==> ValidUTF8(a) && ValidUTF8(b)
    decreases |a|
  {
    var s := a + [c] + b;
    if a == "" {
      assert s[0] == c && s[1..] == b;
    } else {
      SameLength(a, c, b);
      var n := SequenceLength(a);
      if n > 0 {
        assert s[n..] == a[n..] + [c] + b;
        ChecksInPieces(a[n..], c, b);
      }
    }
  }

  lemma SameLength(a: string, c: char, b: string)
    requires a != "" && c < '\U{80}'
    ensures SequenceLength(a + [c] + b) == SequenceLength(a)
  {
    var s := a + [c] + b;
    assert forall k :: 0 <= k < |a| ==> s[k] == a[k];
    assert s[|a|] == c;
  }

  // ---------------------------------------------------------------- the reference

  /** The whole decoding in one pass from the left: None where a percent sign begins no escape. */
  function Decoded(p: string): Option<string> {
    if p == "" then Some("")
    else if p[0] != '%' then Prepend([p[0]], Decoded(p[1..]))
    else if !Escaped(p) then None
    else Prepend(if Survives(p) then p[..3] else [ByteOf(p)], Decoded(p[3..]))
  }

  function Prepend(s: string, rest: Option<string>): Option<string> {
    if rest.Some? then Some(s + rest.value) else None
  }

  /** What decodePathname returns. */
  function Pathname(p: string): Option<string> {
    if Decoded(p).Some? && ValidUTF8(Decoded(p).value) then Decoded(p) else None
  }

  // ---------------------------------------------------------------- its properties

  function Slashes(s: string): nat {
    if s == "" then 0 else (if s[0] == '/' then 1 else 0) + Slashes(s[1..])
  }

  /** Every percent sign begins an escape that survives. */
  predicate Clean(s: string) {
    forall i :: 0 <= i < |s| && s[i] == '%' ==> Escaped(s[i..]) && Survives(s[i..])
  }

  lemma DecodesChar(c: char, rest: string)
    requires c != '%'
    ensures PercentDecode([c] + rest) == [c] + PercentDecode(rest)
    ensures Decoded([c] + rest) == Prepend([c], Decoded(rest))
    ensures Slashes([c] + rest) == (if c == '/' then 1 else 0) + Slashes(rest)
  {
    assert ([c] + rest)[1..] == rest;
  }

  lemma DecodesEscape(e: string, rest: string)
    requires |e| == 3 && Escaped(e)
    ensures Escaped(e + rest) && ByteOf(e + rest) == ByteOf(e) && Survives(e + rest) == Survives(e)
    ensures PercentDecode(e + rest) == [ByteOf(e)] + PercentDecode(rest)
    ensures Decoded(e + rest) == Prepend(if Survives(e) then e else [ByteOf(e)], Decoded(rest))
    ensures Slashes(e + rest) == Slashes(rest)
  {
    var s := e + rest;
    assert s[..3] == e && e[..3] == e && s[3..] == rest;
    assert s[1..][1..][1..] == rest;
    assert s[1..][0] == e[1] && s[1..][1..][0] == e[2];
    assert Slashes(s[1..]) == Slashes(s[1..][1..]) == Slashes(s[1..][1..][1..]);
  }

  /** An escape of a percent sign, however it is spelled, is `%25`. */
  lemma OnlyPercentDecodesToPercent(e: string)
    requires |e| == 3 && Escaped(e)
    ensures ByteOf(e) == '%' <==> e == "%25"
  {
  }

  lemma SuffixOf(e: string, rest: string, i: nat)
    requires |e| <= i <= |e + rest|
    ensures (e + rest)[i..] == rest[i - |e|..]
  {
  }

  lemma CleanChar(c: char, rest: string)
    requires c != '%' && Clean(rest)
    ensures Clean([c] + rest)
  {
    hide Escaped, Survives;
    var s := [c] + rest;
    forall i | 0 <= i < |s| && s[i] == '%' ensures Escaped(s[i..]) && Survives(s[i..]) {
      SuffixOf([c], rest, i);
      assert rest[i - 1] == '%';
    }
  }

  lemma CleanEscape(e: string, rest: string)
    requires |e| == 3 && Escaped(e) && Survives(e) && Clean(rest)
    ensures Clean(e + rest)
  {
    var s := e + rest;
    DecodesEscape(e, rest);
    assert e[1] != '%' && e[2] != '%';
    assert s[0..] == s && s[1] == e[1] && s[2] == e[2];
    hide Escaped, Survives, PercentDecode, Decoded, Slashes, ByteOf;
    forall i | 0 <= i < |s| && s[i] == '%' ensures Escaped(s[i..]) && Survives(s[i..]) {
      if i > 0 {
        SuffixOf(e, rest, i);
        assert rest[i - 3] == '%';
      }
    }
  }

  /**
   What decodes, decodes to text that means the same, with the same raw slashes, in which every
   percent sign begins a surviving escape, and which decodes to itself: no escape is undone twice.
   */
  lemma {:induction false} DecodesOnce(p: string)
    requires Decoded(p).Some?
    ensures
      var q := Decoded(p).value;
      && PercentDecode(q) == PercentDecode(p)
      && Slashes(q) == Slashes(p)
      && Clean(q)
      && Decoded(q) == Some(q)
    decreases |p|
  {
    if p == "" {
    } else if p[0] != '%' {
      var rest := p[1..];
      DecodesOnce(rest);
      assert p == [p[0]] + rest;
      hide PercentDecode, Slashes, Clean;
      DecodesChar(p[0], rest);
      DecodesChar(p[0], Decoded(rest).value);
      CleanChar(p[0], Decoded(rest).value);
    } else {
      var e, rest := p[..3], p[3..];
      DecodesOnce(rest);
      assert p == e + rest;
      hide PercentDecode, Slashes, Clean;
      OnlyPercentDecodesToPercent(e);
      DecodesEscape(e, rest);
      var q := Decoded(rest).value;
      if Survives(e) {
        DecodesEscape(e, q);
        CleanEscape(e, q);
      } else {
        DecodesChar(ByteOf(e), q);
        CleanChar(ByteOf(e), q);
      }
    }
  }

  /** decodePathname is a normal form: what it returns, it returns unchanged. */
  lemma PathnameIsNormal(p: string)
    requires Pathname(p).Some?
    ensures Pathname(Pathname(p).value) == Pathname(p)
    ensures PercentDecode(Pathname(p).value) == PercentDecode(p)
    ensures Slashes(Pathname(p).value) == Slashes(p)
    ensures Clean(Pathname(p).value)
  {
    DecodesOnce(p);
  }

  /** Decoding brings out no reserved character that was not there. */
  lemma {:induction false} DecodingAddsNoReserved(p: string, c: char)
    requires Decoded(p).Some? && c in RESERVED && c !in p
    ensures c !in Decoded(p).value
    decreases |p|
  {
    if p == "" {
    } else if p[0] != '%' {
      assert p == [p[0]] + p[1..];
      DecodingAddsNoReserved(p[1..], c);
    } else {
      assert p == p[..3] + p[3..];
      DecodingAddsNoReserved(p[3..], c);
    }
  }

  // ---------------------------------------------------------------- decodePathname

  predicate BeginsPercent(s: string) {
    |s| >= 3 && s[..3] == "%25"
  }

  /** strings.Split(s, "%25"). */
  function Split(s: string): (parts: seq<string>)
    ensures |parts| > 0
  {
    if s == "" then [""]
    else if BeginsPercent(s) then [""] + Split(s[3..])
    else
      var rest := Split(s[1..]);
      [[s[0]] + rest[0]] + rest[1..]
  }

  /** strings.Join(parts, "%25"). */
  function Join(parts: seq<string>): string
    requires |parts| > 0
  {
    if |parts| == 1 then parts[0] else parts[0] + "%25" + Join(parts[1..])
  }

  /** No `%25` is left in a part. */
  predicate Unbroken(s: string) {
    forall i :: 0 <= i <= |s| ==> !BeginsPercent(s[i..])
  }

  /** Each part decoded, or None where one does not decode. */
  function DecodedParts(parts: seq<string>): Option<seq<string>> {
    if parts == [] then Some([])
    else
      var first, rest := Decoded(parts[0]), DecodedParts(parts[1..]);
      if first.Some? && rest.Some? then Some([first.value] + rest.value) else None
  }

  function JoinDecoded(parts: seq<string>): Option<string>
    requires |parts| > 0
  {
    var all := DecodedParts(parts);
    LengthOf(parts);
    if all.Some? then Some(Join(all.value)) else None
  }

  lemma {:induction false} LengthOf(parts: seq<string>)
    ensures DecodedParts(parts).Some? ==> |DecodedParts(parts).value| == |parts|
  {
    if parts != [] {
      LengthOf(parts[1..]);
    }
  }

  lemma {:induction false} PartsAreUnbroken(s: string)
    ensures forall k :: 0 <= k < |Split(s)| ==> Unbroken(Split(s)[k])
    ensures Split(s)[0] <= s
    decreases |s|
  {
    if s == "" {
    } else if BeginsPercent(s) {
      PartsAreUnbroken(s[3..]);
    } else {
      PartsAreUnbroken(s[1..]);
      var first := Split(s[1..])[0];
      var part := [s[0]] + first;
      assert s == [s[0]] + s[1..];
      assert part <= s;
      forall i | 0 <= i <= |part| ensures !BeginsPercent(part[i..]) {
        if i == 0 {
          assert part[0..] == part;
          if |part| >= 3 {
            assert part[..3] == s[..3];
          }
        } else {
          assert part[i..] == first[i - 1..];
        }
      }
    }
  }

  lemma JoinsFront(c: string, parts: seq<string>)
    requires |parts| > 0
    ensures Join([c + parts[0]] + parts[1..]) == c + Join(parts)
  {
    var all := [c + parts[0]] + parts[1..];
    assert all[1..] == parts[1..];
    if |parts| > 1 {
      assert Join(all) == c + parts[0] + "%25" + Join(parts[1..]);
      hide Join;
      Assoc(c, parts[0], "%25");
      Assoc(c, parts[0] + "%25", Join(parts[1..]));
    }
  }

  /** What is put in front of the first part is put in front of the whole. */
  lemma DecodesFront(text: string, out: string, parts: seq<string>)
    requires |parts| > 0
    requires Decoded(text + parts[0]) == Prepend(out, Decoded(parts[0]))
    ensures JoinDecoded([text + parts[0]] + parts[1..]) == Prepend(out, JoinDecoded(parts))
  {
    var all := [text + parts[0]] + parts[1..];
    assert all[1..] == parts[1..];
    hide Decoded, Join;
    if DecodedParts(parts).Some? {
      var done := DecodedParts(parts).value;
      assert DecodedParts(all).value == [out + done[0]] + done[1..];
      JoinsFront(out, done);
    }
  }

  lemma DecodesBreak(parts: seq<string>)
    requires |parts| > 0
    ensures JoinDecoded([""] + parts) == Prepend("%25", JoinDecoded(parts))
  {
    var all := [""] + parts;
    assert all[1..] == parts;
    hide Join;
    if DecodedParts(parts).Some? {
      var done := DecodedParts(parts).value;
      LengthOf(parts);
      assert DecodedParts(all).value == [""] + done;
      JoinsBreak(done);
    }
  }

  lemma JoinsBreak(done: seq<string>)
    requires |done| > 0
    ensures Join([""] + done) == "%25" + Join(done)
  {
    assert ([""] + done)[1..] == done;
    assert "" + "%25" + Join(done) == "%25" + Join(done);
  }

  lemma NotDecoded(parts: seq<string>)
    requires |parts| > 0 && Decoded(parts[0]).None?
    ensures JoinDecoded(parts).None?
  {
  }

  /** Splitting at `%25`, decoding the parts and joining them is the pass from the left. */
  lemma {:induction false} SplittingIsOnePass(p: string)
    ensures JoinDecoded(Split(p)) == Decoded(p)
    decreases |p|
  {
    hide JoinDecoded;
    if p == "" {
      EmptyIsOnePass();
    } else if BeginsPercent(p) {
      SplittingIsOnePass(p[3..]);
      DecodesBreak(Split(p[3..]));
    } else if p[0] != '%' {
      var parts := Split(p[1..]);
      SplittingIsOnePass(p[1..]);
      DecodesChar(p[0], parts[0]);
      DecodesFront([p[0]], [p[0]], parts);
    } else if Escaped(p) {
      EscapeIsOnePass(p);
    } else {
      PartsAreUnbroken(p);
      assert Decoded(Split(p)[0]).None?;
      NotDecoded(Split(p));
    }
  }

  lemma EmptyIsOnePass()
    ensures JoinDecoded(Split("")) == Decoded("")
  {
    assert [""][1..] == [] && [""] + [] == [""];
    assert DecodedParts([""]) == Some([""]);
  }

  lemma {:induction false} EscapeIsOnePass(p: string)
    requires Escaped(p) && !BeginsPercent(p)
    ensures JoinDecoded(Split(p)) == Decoded(p)
    decreases |p|, 0
  {
    var e, t := p[..3], p[3..];
    var parts := Split(t);
    SplittingIsOnePass(t);
    assert p[1..][1..] == p[2..] && p[2..][1..] == t;
    assert Split(p[2..]) == [[p[2]] + parts[0]] + parts[1..];
    assert Split(p[1..]) == [[p[1]] + ([p[2]] + parts[0])] + parts[1..];
    assert Split(p) == [e + parts[0]] + parts[1..] by {
      assert [p[0]] + ([p[1]] + ([p[2]] + parts[0])) == e + parts[0];
    }
    hide JoinDecoded, Split;
    DecodesEscape(e, parts[0]);
    DecodesFront(e, if Survives(e) then e else [ByteOf(e)], parts);
    assert p == e + t;
    DecodesEscape(e, t);
  }

  /** The joined parts are well-formed exactly when each is. */
  lemma {:induction false} JoinIsValid(parts: seq<string>)
    requires |parts| > 0
    ensures ValidUTF8(Join(parts)) <==> forall k :: 0 <= k < |parts| ==> ValidUTF8(parts[k])
  {
    if |parts| > 1 {
      var rest := parts[1..];
      JoinIsValid(rest);
      ChecksInPieces(parts[0], '%', "25" + Join(rest));
      assert Join(parts) == parts[0] + ['%'] + ("25" + Join(rest));
      assert ("25" + Join(rest))[1..][1..] == Join(rest);
      assert ValidUTF8("25" + Join(rest)) == ValidUTF8(("25" + Join(rest))[1..]) == ValidUTF8(Join(rest));
      assert forall k :: 0 <= k < |rest| ==> rest[k] == parts[k + 1];
      assert forall k :: 0 < k < |parts| ==> parts[k] == rest[k - 1];
    }
  }

  /** The inner loop: one part, its escapes undone but the reserved ones. */
  method DecodePart(part: string) returns (r: Option<string>)
    requires Unbroken(part)
    ensures r == Decoded(part)
  {
    var out := "";
    var j := 0;
    assert part[0..] == part;
    assert Decoded(part).Some? ==> "" + Decoded(part).value == Decoded(part).value;
    while j < |part|
      invariant 0 <= j <= |part|
      invariant Decoded(part) == Prepend(out, Decoded(part[j..]))
    {
      var rest := part[j..];
      assert !BeginsPercent(rest);
      if part[j] != '%' {
        assert rest[1..] == part[j + 1..];
        Prepends(out, [part[j]], Decoded(part[j + 1..]));
        out := out + [part[j]];
        j := j + 1;
        continue;
      }
      if j + 2 >= |part| || !Escaped(rest) {
        return None;
      }
      assert rest[3..] == part[j + 3..];
      if ByteOf(rest) in RESERVED {
        Prepends(out, rest[..3], Decoded(part[j + 3..]));
        out := out + rest[..3];
      } else {
        Prepends(out, [ByteOf(rest)], Decoded(part[j + 3..]));
        out := out + [ByteOf(rest)];
      }
      j := j + 3;
    }
    assert out + "" == out;
    return Some(out);
  }

  lemma Prepends(a: string, b: string, rest: Option<string>)
    ensures Prepend(a, Prepend(b, rest)) == Prepend(a + b, rest)
  {
    if rest.Some? {
      assert a + (b + rest.value) == a + b + rest.value;
    }
  }

  lemma {:induction false} AllDecoded(parts: seq<string>, done: seq<string>)
    requires |parts| == |done|
    requires forall k :: 0 <= k < |parts| ==> Decoded(parts[k]) == Some(done[k])
    ensures DecodedParts(parts) == Some(done)
  {
    if parts != [] {
      AllDecoded(parts[1..], done[1..]);
      assert done == [done[0]] + done[1..];
    }
  }

  lemma {:induction false} OneFails(parts: seq<string>, k: nat)
    requires k < |parts| && Decoded(parts[k]).None?
    ensures DecodedParts(parts).None?
  {
    if k > 0 {
      OneFails(parts[1..], k - 1);
    }
  }

  /** decodePathname: split at `%25`, each part decoded and checked, and joined again. */
  method DecodePathname(path: string) returns (r: Option<string>)
    ensures r == Pathname(path)
  {
    var parts := Split(path);
    ghost var was := parts;
    PartsAreUnbroken(path);
    SplittingIsOnePass(path);
    hide Decoded, ValidUTF8, Split, Unbroken, Join;
    for i := 0 to |parts|
      invariant |parts| == |was|
      invariant forall k :: i <= k < |parts| ==> parts[k] == was[k]
      invariant forall k :: 0 <= k < i ==> Decoded(was[k]) == Some(parts[k]) && ValidUTF8(parts[k])
    {
      var part := DecodePart(parts[i]);
      if part.None? {
        OneFails(was, i);
        return None;
      }
      parts := parts[i := part.value];
      if !ValidUTF8(parts[i]) {
        if DecodedParts(was).Some? {
          NotAllValid(was, i);
        }
        return None;
      }
    }
    AllDecoded(was, parts);
    JoinIsValid(parts);
    return Some(Join(parts));
  }

  lemma {:induction false} PartOf(parts: seq<string>, k: nat)
    requires k < |parts| && DecodedParts(parts).Some?
    ensures |DecodedParts(parts).value| == |parts| && Decoded(parts[k]) == Some(DecodedParts(parts).value[k])
  {
    LengthOf(parts);
    if k > 0 {
      PartOf(parts[1..], k - 1);
    }
  }

  lemma NotAllValid(parts: seq<string>, k: nat)
    requires k < |parts| && DecodedParts(parts).Some?
    requires Decoded(parts[k]).Some? && !ValidUTF8(Decoded(parts[k]).value)
    ensures |DecodedParts(parts).value| > 0 && !ValidUTF8(Join(DecodedParts(parts).value))
  {
    PartOf(parts, k);
    JoinIsValid(DecodedParts(parts).value);
  }

  lemma Assoc(a: string, b: string, c: string)
    ensures a + b + c == a + (b + c)
  {
  }

  /** percentDecode's loop. */
  method PercentDecodeAll(s: string) returns (out: string)
    ensures out == PercentDecode(s)
  {
    out := "";
    var i := 0;
    assert s[0..] == s;
    while i < |s|
      invariant 0 <= i <= |s|
      invariant PercentDecode(s) == out + PercentDecode(s[i..])
    {
      var rest := s[i..];
      if Escaped(rest) {
        assert rest[3..] == s[i + 3..];
        Assoc(out, [ByteOf(rest)], PercentDecode(s[i + 3..]));
        out := out + [ByteOf(rest)];
        i := i + 3;
      } else {
        assert rest[1..] == s[i + 1..];
        Assoc(out, [s[i]], PercentDecode(s[i + 1..]));
        out := out + [s[i]];
        i := i + 1;
      }
    }
    assert out + "" == out;
  }
}
