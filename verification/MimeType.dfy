/**
 The MIME type of a data: URL (fetch_data.go): parsed and printed again as sections 4.4 and 4.5
 of the WHATWG MIME Sniffing standard have it. Text is a sequence of code points; what is not
 UTF-8 is U+FFFD, as Go's range over a string has it.
 */
module MimeType {
  import opened Wrappers

  datatype Param = Param(name: string, value: string)

  datatype Record = Record(typ: string, subtype: string, params: seq<Param>)

  const WHITESPACE := "\t\n\r "

  // ---------------------------------------------------------------- scanning

  predicate Alphanumeric(c: char) {
    '0' <= c <= '9' || 'a' <= c <= 'z' || 'A' <= c <= 'Z'
  }

  predicate TokenChar(c: char) {
    Alphanumeric(c) || c in "!#$%&'*+-.^_`|~"
  }

  predicate IsToken(s: string) {
    s != "" && forall i :: 0 <= i < |s| ==> TokenChar(s[i])
  }

  /** A code point a parameter's value may hold. */
  predicate ValueChar(c: char) {
    c == '\t' || ' ' <= c <= '~' || '\U{80}' <= c <= '\U{ff}'
  }

  predicate IsValue(s: string) {
    forall i :: 0 <= i < |s| ==> ValueChar(s[i])
  }

  /**
   strings.ToLower. Of the code points that are not ASCII, the Kelvin sign and the capital I with a
   dot become ASCII letters; no other does, and none that does not can be in a token.
   */
  function LowerChar(c: char): char {
    if 'A' <= c <= 'Z' then (c as int + 32) as char
    else if c == '\U{212A}' then 'k'
    else if c == '\U{130}' then 'i'
    else c
  }

  function Lower(s: string): (r: string)
    ensures |r| == |s| && forall i :: 0 <= i < |s| ==> r[i] == LowerChar(s[i])
  {
    if s == "" then "" else Lower(s[..|s| - 1]) + [LowerChar(s[|s| - 1])]
  }

  lemma LowerCharTwice(c: char)
    ensures LowerChar(LowerChar(c)) == LowerChar(c)
    ensures TokenChar(c) ==> TokenChar(LowerChar(c))
  {
  }

  lemma LowerTwice(s: string)
    ensures Lower(Lower(s)) == Lower(s)
    ensures IsToken(s) ==> IsToken(Lower(s))
  {
    hide LowerChar, TokenChar, Lower;
    forall i | 0 <= i < |s|
      ensures LowerChar(LowerChar(s[i])) == LowerChar(s[i])
      ensures TokenChar(s[i]) ==> TokenChar(LowerChar(s[i]))
    {
      LowerCharTwice(s[i]);
    }
  }

  /** The first of some characters in s, or -1. */
  function IndexAny(s: string, chars: string): (k: int)
    ensures -1 <= k < |s|
    ensures k >= 0 ==> s[k] in chars && forall i :: 0 <= i < k ==> s[i] !in chars
    ensures k < 0 ==> forall i :: 0 <= i < |s| ==> s[i] !in chars
  {
    if s == "" then -1
    else if s[0] in chars then 0
    else
      var k := IndexAny(s[1..], chars);
      if k < 0 then -1 else k + 1
  }

  function TrimLeft(s: string): (r: string)
    ensures |r| <= |s|
  {
    if s != "" && s[0] in WHITESPACE then TrimLeft(s[1..]) else s
  }

  function TrimRight(s: string): (r: string)
    ensures |r| <= |s|
  {
    if s != "" && s[|s| - 1] in WHITESPACE then TrimRight(s[..|s| - 1]) else s
  }

  /** strings.Cut around one character: what is before its first occurrence, and what is after. */
  function Before(s: string, c: char): string {
    var k := IndexAny(s, [c]);
    if k < 0 then s else s[..k]
  }

  function After(s: string, c: char): (r: string)
    ensures |r| <= |s| && (s != "" ==> |r| < |s|)
  {
    var k := IndexAny(s, [c]);
    if k < 0 then "" else s[k + 1..]
  }

  // ---------------------------------------------------------------- quoted strings

  datatype Collected = Collected(value: string, rest: string)

  /** What a quoted string holds and what follows it, from just inside the opening quote. */
  function Collect(s: string): (r: Collected)
    ensures |r.rest| <= |s|
  {
    if s == "" then Collected("", "")
    else if s[0] == '"' then Collected("", s[1..])
    else if s[0] == '\\' && |s| == 1 then Collected("\\", "")
    else
      var at := if s[0] == '\\' then 1 else 0;
      var inner := Collect(s[at + 1..]);
      Collected([s[at]] + inner.value, inner.rest)
  }

  function EscapeChar(c: char): string {
    if c == '\\' || c == '"' then ['\\', c] else [c]
  }

  function Escape(value: string): string {
    if value == "" then "" else Escape(value[..|value| - 1]) + EscapeChar(value[|value| - 1])
  }

  lemma Assoc(a: string, b: string, c: string)
    ensures a + b + c == a + (b + c)
  {
  }

  lemma Snoc(s: string)
    requires s != ""
    ensures s == s[..|s| - 1] + [s[|s| - 1]]
  {
  }

  lemma CollectsChar(c: char, rest: string)
    ensures Collect(EscapeChar(c) + rest) == Collected([c] + Collect(rest).value, Collect(rest).rest)
  {
    var s := EscapeChar(c) + rest;
    assert s[|EscapeChar(c)|..] == rest;
  }

  lemma CollectsQuote(rest: string)
    ensures Collect("\"" + rest) == Collected("", rest)
  {
    assert ("\"" + rest)[1..] == rest;
  }

  /** What is collected from an escaped value, whatever follows it. */
  lemma {:induction false} CollectsEscaped(value: string, rest: string)
    ensures Collect(Escape(value) + rest) == Collected(value + Collect(rest).value, Collect(rest).rest)
  {
    if value == "" {
      assert Escape(value) + rest == rest;
      assert value + Collect(rest).value == Collect(rest).value;
    } else {
      var n := |value| - 1;
      var c := value[n];
      var tail := EscapeChar(c) + rest;
      CollectsEscaped(value[..n], tail);
      CollectsChar(c, rest);
      Assoc(Escape(value[..n]), EscapeChar(c), rest);
      Assoc(value[..n], [c], Collect(rest).value);
      Snoc(value);
      assert Escape(value) == Escape(value[..n]) + EscapeChar(c);
      hide Collect, EscapeChar, Escape;
    }
  }

  /** A value escaped and quoted is collected back, whatever follows. */
  lemma CollectsWhatIsEscaped(value: string, rest: string)
    ensures Collect(Escape(value) + "\"" + rest) == Collected(value, rest)
  {
    CollectsEscaped(value, "\"" + rest);
    CollectsQuote(rest);
    Assoc(Escape(value), "\"", rest);
    assert value + "" == value;
    hide Collect, Escape;
  }

  /** quotedString, from the opening quote s begins with. */
  method QuotedString(s: string) returns (value: string, rest: string)
    requires s != "" && s[0] == '"'
    ensures Collect(s[1..]) == Collected(value, rest)
  {
    value := "";
    var i := 1;
    CollectedFrom(s);
    hide Collect;
    while i < |s|
      invariant 1 <= i <= |s|
      invariant CollectedSo(s, i, value)
    {
      CollectsOn(s, i, value);
      if s[i] == '"' {
        return value, s[i + 1..];
      }
      if s[i] == '\\' {
        if i + 1 == |s| {
          return value + "\\", "";
        }
        i := i + 1;
      }
      value := value + [s[i]];
      i := i + 1;
    }
    CollectsOn(s, i, value);
    rest := "";
  }

  /** What collecting from i will add to what is collected so far. */
  ghost predicate CollectedSo(s: string, i: nat, value: string)
    requires 1 <= i <= |s|
  {
    Collect(s[1..]) == Collected(value + Collect(s[i..]).value, Collect(s[i..]).rest)
  }

  lemma CollectedFrom(s: string)
    requires s != ""
    ensures CollectedSo(s, 1, "")
  {
    assert "" + Collect(s[1..]).value == Collect(s[1..]).value;
  }

  lemma CollectsOn(s: string, i: nat, value: string)
    requires 1 <= i <= |s| && CollectedSo(s, i, value)
    ensures i == |s| ==> Collect(s[1..]) == Collected(value, "")
    ensures i < |s| && s[i] == '"' ==> Collect(s[1..]) == Collected(value, s[i + 1..])
    ensures i + 1 == |s| && s[i] == '\\' ==> Collect(s[1..]) == Collected(value + "\\", "")
    ensures i + 1 < |s| && s[i] == '\\' ==> CollectedSo(s, i + 2, value + [s[i + 1]])
    ensures i < |s| && s[i] != '"' && s[i] != '\\' ==> CollectedSo(s, i + 1, value + [s[i]])
  {
    assert value + "" == value;
    if i < |s| {
      assert s[i..][1..] == s[i + 1..];
      if s[i] == '\\' && i + 1 < |s| {
        assert s[i..][2..] == s[i + 2..];
        Assoc(value, [s[i + 1]], Collect(s[i + 2..]).value);
      } else {
        Assoc(value, [s[i]], Collect(s[i + 1..]).value);
      }
    }
  }

  // ---------------------------------------------------------------- parsing

  /** What is after a parameter's `=`: its value, what is left, and whether it is one at all. */
  function ValueOf(after: string): string {
    if after != "" && after[0] == '"' then Collect(after[1..]).value else TrimRight(Before(after, ';'))
  }

  function LeftOf(after: string): (r: string)
    ensures |r| <= |after|
  {
    if after != "" && after[0] == '"' then After(Collect(after[1..]).rest, ';') else After(after, ';')
  }

  /** A parameter is kept: it has a value, its name is a new token, and its value is printable. */
  predicate KeepsParam(name: string, after: string, seen: set<string>) {
    && (ValueOf(after) != "" || (after != "" && after[0] == '"'))
    && IsToken(name) && name !in seen && IsValue(ValueOf(after))
  }

  /** What one round of the parameter loop comes to: the end, nothing kept, or a parameter. */
  datatype Round = Ends | Skips(rest: string) | Takes(param: Param, rest: string)

  function RoundOf(rest: string, seen: set<string>): (r: Round)
    requires rest != ""
    ensures !r.Ends? ==> |r.rest| < |rest|
    ensures r.Takes? ==> IsToken(r.param.name) && Lower(r.param.name) == r.param.name && IsValue(r.param.value)
    ensures r.Takes? ==> r.param.name !in seen
  {
    var s := TrimLeft(rest);
    var end := IndexAny(s, ";=");
    if end < 0 then Ends
    else
      var name, after := Lower(s[..end]), s[end + 1..];
      LowerTwice(s[..end]);
      if s[end] == ';' then Skips(after)
      else if KeepsParam(name, after, seen) then Takes(Param(name, ValueOf(after)), LeftOf(after))
      else Skips(LeftOf(after))
  }

  function ParseParams(rest: string, seen: set<string>): seq<Param>
    decreases |rest|
  {
    if rest == "" then []
    else
      match RoundOf(rest, seen)
      case Ends => []
      case Skips(left) => ParseParams(left, seen)
      case Takes(p, left) => [p] + ParseParams(left, seen + {p.name})
  }

  function Parse(input: string): Option<Record> {
    var s := TrimRight(TrimLeft(input));
    if IndexAny(s, "/") < 0 || !IsToken(Before(s, '/')) then None
    else
      var rest := After(s, '/');
      var subtype := TrimRight(Before(rest, ';'));
      if !IsToken(subtype) then None
      else Some(Record(Lower(Before(s, '/')), Lower(subtype), ParseParams(After(rest, ';'), {})))
  }

  // ---------------------------------------------------------------- the standard's own parse

  /** ASCII lowercase, which is all the standard does to a name. */
  function AsciiLowerChar(c: char): char {
    if 'A' <= c <= 'Z' then (c as int + 32) as char else c
  }

  function AsciiLower(s: string): (r: string)
    ensures |r| == |s| && forall i :: 0 <= i < |s| ==> r[i] == AsciiLowerChar(s[i])
  {
    if s == "" then "" else AsciiLower(s[..|s| - 1]) + [AsciiLowerChar(s[|s| - 1])]
  }

  /** The Kelvin sign and the capital I with a dot. */
  predicate Odd(s: string) {
    '\U{212A}' in s || '\U{130}' in s
  }

  /** One round of the parameter loop in section 4.4 of the standard. */
  function StandardRound(rest: string, seen: set<string>): (r: Round)
    requires rest != ""
    ensures !r.Ends? ==> |r.rest| < |rest|
  {
    var s := TrimLeft(rest);
    var end := IndexAny(s, ";=");
    if end < 0 then Ends
    else if s[end] == ';' then Skips(s[end + 1..])
    else
      var name, after := AsciiLower(s[..end]), s[end + 1..];
      if KeepsParam(name, after, seen) then Takes(Param(name, ValueOf(after)), LeftOf(after)) else Skips(LeftOf(after))
  }

  function StandardParams(rest: string, seen: set<string>): seq<Param>
    decreases |rest|
  {
    if rest == "" then []
    else
      match StandardRound(rest, seen)
      case Ends => []
      case Skips(left) => StandardParams(left, seen)
      case Takes(p, left) => [p] + StandardParams(left, seen + {p.name})
  }

  function StandardParse(input: string): Option<Record> {
    var s := TrimRight(TrimLeft(input));
    if IndexAny(s, "/") < 0 || !IsToken(Before(s, '/')) then None
    else
      var rest := After(s, '/');
      var subtype := TrimRight(Before(rest, ';'));
      if !IsToken(subtype) then None
      else Some(Record(AsciiLower(Before(s, '/')), AsciiLower(subtype), StandardParams(After(rest, ';'), {})))
  }

  /** The name a round begins with, as it is written. */
  function RawName(rest: string): string {
    var s := TrimLeft(rest);
    var end := IndexAny(s, ";=");
    if end < 0 then "" else s[..end]
  }

  lemma LoweredChar(c: char)
    ensures LowerChar(c) == AsciiLowerChar(c) || c == '\U{212A}' || c == '\U{130}'
    ensures TokenChar(AsciiLowerChar(c)) <==> TokenChar(c)
    ensures TokenChar(c) ==> c != '\U{212A}' && c != '\U{130}'
  {
  }

  lemma Lowered(s: string)
    ensures !Odd(s) ==> Lower(s) == AsciiLower(s)
    ensures Odd(s) ==> !IsToken(AsciiLower(s)) && !IsToken(s)
  {
    hide LowerChar, AsciiLowerChar, TokenChar, Lower, AsciiLower;
    forall i | 0 <= i < |s|
      ensures LowerChar(s[i]) == AsciiLowerChar(s[i]) || s[i] == '\U{212A}' || s[i] == '\U{130}'
      ensures TokenChar(AsciiLowerChar(s[i])) <==> TokenChar(s[i])
      ensures TokenChar(s[i]) ==> s[i] != '\U{212A}' && s[i] != '\U{130}'
    {
      LoweredChar(s[i]);
    }
    if Odd(s) {
      var i :| 0 <= i < |s| && (s[i] == '\U{212A}' || s[i] == '\U{130}');
      assert !TokenChar(AsciiLower(s)[i]);
    }
  }

  /** A round goes by the standard unless it takes a parameter whose name is odd, which the standard skips. */
  lemma RoundsAgree(rest: string, seen: set<string>)
    requires rest != ""
    ensures RoundOf(rest, seen) == StandardRound(rest, seen) <==> !(RoundOf(rest, seen).Takes? && Odd(RawName(rest)))
    ensures RoundOf(rest, seen).Takes? && Odd(RawName(rest)) ==>
      StandardRound(rest, seen) == Skips(RoundOf(rest, seen).rest)
  {
    Lowered(RawName(rest));
    hide IsToken, IsValue, IndexAny, TrimLeft, Lower, AsciiLower, ValueOf, LeftOf, Odd;
  }

  /** A parameter that is taken, with the text at the start of its round. */
  datatype Taken = Taken(from: string, param: Param)

  function CodeTakes(rest: string, seen: set<string>): seq<Taken>
    decreases |rest|
  {
    if rest == "" then []
    else
      match RoundOf(rest, seen)
      case Ends => []
      case Skips(left) => CodeTakes(left, seen)
      case Takes(p, left) => [Taken(rest, p)] + CodeTakes(left, seen + {p.name})
  }

  function StandardTakes(rest: string, seen: set<string>): (takes: seq<Taken>)
    ensures forall t :: t in takes ==> |t.from| <= |rest|
    decreases |rest|
  {
    if rest == "" then []
    else
      match StandardRound(rest, seen)
      case Ends => []
      case Skips(left) => StandardTakes(left, seen)
      case Takes(p, left) => [Taken(rest, p)] + StandardTakes(left, seen + {p.name})
  }

  predicate TakesOdd(takes: seq<Taken>) {
    exists t :: t in takes && Odd(RawName(t.from))
  }

  lemma TakesOddFront(t: Taken, takes: seq<Taken>)
    ensures TakesOdd([t] + takes) <==> Odd(RawName(t.from)) || TakesOdd(takes)
  {
    hide Odd, RawName;
    var all := [t] + takes;
    assert all[0] == t;
    assert forall u :: u in all <==> u == t || u in takes;
  }

  /**
   The loop takes the very parameters the standard takes, there and with those names and values,
   if and only if none that it takes has an odd name.
   */
  lemma {:induction false} TakesWhatTheStandardTakes(rest: string, seen: set<string>)
    ensures CodeTakes(rest, seen) == StandardTakes(rest, seen) <==> !TakesOdd(CodeTakes(rest, seen))
    decreases |rest|
  {
    hide RoundOf, StandardRound, Odd, RawName, TakesOdd;
    if rest == "" {
      NothingTaken();
    } else {
      RoundsAgree(rest, seen);
      match RoundOf(rest, seen) {
        case Ends =>
          NothingTaken();
        case Skips(left) =>
          TakesWhatTheStandardTakes(left, seen);
        case Takes(p, left) =>
          var more := CodeTakes(left, seen + {p.name});
          TakesOddFront(Taken(rest, p), more);
          if Odd(RawName(rest)) {
            // The standard's parameters all come later.
            assert CodeTakes(rest, seen)[0] == Taken(rest, p);
            assert Taken(rest, p) !in StandardTakes(left, seen);
          } else {
            TakesWhatTheStandardTakes(left, seen + {p.name});
            var others := StandardTakes(left, seen + {p.name});
            assert ([Taken(rest, p)] + more)[1..] == more && ([Taken(rest, p)] + others)[1..] == others;
          }
      }
    }
  }

  lemma NothingTaken()
    ensures !TakesOdd([])
  {
  }

  /** What is taken is what is parsed. */
  function Params(takes: seq<Taken>): seq<Param> {
    if takes == [] then [] else [takes[0].param] + Params(takes[1..])
  }

  lemma ParamsFront(t: Taken, takes: seq<Taken>)
    ensures Params([t] + takes) == [t.param] + Params(takes)
  {
    assert ([t] + takes)[1..] == takes;
  }

  lemma {:induction false} ParsesWhatItTakes(rest: string, seen: set<string>)
    ensures ParseParams(rest, seen) == Params(CodeTakes(rest, seen))
    decreases |rest|
  {
    hide RoundOf;
    if rest != "" {
      match RoundOf(rest, seen)
      case Ends =>
      case Skips(left) => ParsesWhatItTakes(left, seen);
      case Takes(p, left) =>
        ParsesWhatItTakes(left, seen + {p.name});
        ParamsFront(Taken(rest, p), CodeTakes(left, seen + {p.name}));
    }
  }

  lemma {:induction false} StandardParsesWhatItTakes(rest: string, seen: set<string>)
    ensures StandardParams(rest, seen) == Params(StandardTakes(rest, seen))
    decreases |rest|
  {
    hide StandardRound;
    if rest != "" {
      match StandardRound(rest, seen)
      case Ends =>
      case Skips(left) => StandardParsesWhatItTakes(left, seen);
      case Takes(p, left) =>
        StandardParsesWhatItTakes(left, seen + {p.name});
        ParamsFront(Taken(rest, p), StandardTakes(left, seen + {p.name}));
    }
  }

  /** The text of the parameters, after the subtype. */
  function ParamText(input: string): string {
    After(After(TrimRight(TrimLeft(input)), '/'), ';')
  }

  /**
   serializeMIMEType parses as the standard does, type and subtype always, and the parameters
   wherever no taken name is odd.
   */
  lemma ParsesAsTheStandard(input: string)
    ensures Parse(input).Some? <==> StandardParse(input).Some?
    ensures Parse(input).Some? ==> Parse(input).value.typ == StandardParse(input).value.typ
    ensures Parse(input).Some? ==> Parse(input).value.subtype == StandardParse(input).value.subtype
    ensures Parse(input).Some? ==> Parse(input).value.params == Params(CodeTakes(ParamText(input), {}))
    ensures Parse(input).Some? ==> StandardParse(input).value.params == Params(StandardTakes(ParamText(input), {}))
    ensures !TakesOdd(CodeTakes(ParamText(input), {})) ==> Parse(input) == StandardParse(input)
  {
    var s := TrimRight(TrimLeft(input));
    Lowered(Before(s, '/'));
    Lowered(TrimRight(Before(After(s, '/'), ';')));
    ParsesWhatItTakes(ParamText(input), {});
    StandardParsesWhatItTakes(ParamText(input), {});
    TakesWhatTheStandardTakes(ParamText(input), {});
    hide IsToken, Lower, AsciiLower, Before, TrimLeft, TrimRight, ParseParams, StandardParams, TakesOdd, CodeTakes;
    hide StandardTakes, Params;
  }

  lemma RoundIsPlain(rest: string, seen: set<string>)
    requires rest != "" && !Odd(rest)
    ensures !Odd(RawName(rest))
    ensures !RoundOf(rest, seen).Ends? ==> !Odd(RoundOf(rest, seen).rest)
  {
    TrimLeftInside(rest);
    var s := TrimLeft(rest);
    var end := IndexAny(s, ";=");
    hide TrimLeft, IndexAny, KeepsParam, Lower, LeftOf, ValueOf, LowerToken, IsToken, IsValue;
    if end >= 0 {
      assert forall c :: c in s[..end] ==> c in s;
      assert forall c :: c in s[end + 1..] ==> c in s;
      LeftOfInside(s[end + 1..]);
    }
  }

  lemma LeftOfInside(after: string)
    ensures forall c :: c in LeftOf(after) ==> c in after
  {
    if after != "" && after[0] == '"' {
      CollectInside(after[1..]);
      AfterInside(Collect(after[1..]).rest);
    } else {
      AfterInside(after);
    }
    hide Collect, After;
  }

  lemma AfterInside(s: string)
    ensures forall c :: c in After(s, ';') ==> c in s
  {
    hide IndexAny;
  }

  lemma {:induction false} TrimLeftInside(s: string)
    ensures forall c :: c in TrimLeft(s) ==> c in s
  {
    if s != "" {
      TrimLeftInside(s[1..]);
    }
  }

  lemma {:induction false} TrimRightInside(s: string)
    ensures forall c :: c in TrimRight(s) ==> c in s
  {
    if s != "" {
      TrimRightInside(s[..|s| - 1]);
    }
  }

  lemma {:induction false} CollectInside(s: string)
    ensures forall c :: c in Collect(s).rest ==> c in s
  {
    if s != "" && s[0] != '"' && !(s[0] == '\\' && |s| == 1) {
      CollectInside(s[(if s[0] == '\\' then 1 else 0) + 1..]);
    }
  }

  lemma {:induction false} PlainTextTakesPlain(rest: string, seen: set<string>)
    requires !Odd(rest)
    ensures !TakesOdd(CodeTakes(rest, seen))
    decreases |rest|
  {
    hide RoundOf, Odd, RawName, TakesOdd;
    NothingTaken();
    if rest != "" {
      RoundIsPlain(rest, seen);
      match RoundOf(rest, seen)
      case Ends =>
      case Skips(left) => PlainTextTakesPlain(left, seen);
      case Takes(p, left) =>
        PlainTextTakesPlain(left, seen + {p.name});
        TakesOddFront(Taken(rest, p), CodeTakes(left, seen + {p.name}));
    }
  }

  /** Without the two signs in it, any input parses as the standard has it. */
  lemma PlainInputsParseAsTheStandard(input: string)
    requires !Odd(input)
    ensures Parse(input) == StandardParse(input)
  {
    TrimLeftInside(input);
    TrimRightInside(TrimLeft(input));
    assert !Odd(ParamText(input)) by {
      hide TrimLeft, TrimRight;
    }
    PlainTextTakesPlain(ParamText(input), {});
    ParsesAsTheStandard(input);
  }

  /** A name of one letter and its value `v`. */
  lemma OneLetterRound(text: string, c: char, after: string, left: string, seen: set<string>)
    requires text == [c] + "=" + after && c !in WHITESPACE && c !in ";="
    requires TokenChar(LowerChar(c)) && [LowerChar(c)] !in seen
    requires ValueOf(after) == "v" && IsValue("v") && LeftOf(after) == left
    ensures RoundOf(text, seen) == Takes(Param([LowerChar(c)], "v"), left)
    ensures RawName(text) == [c]
  {
    ReadsLetter(text, c, after);
    assert Lower([c]) == [LowerChar(c)];
    hide TrimLeft, IndexAny, Lower, ValueOf, LeftOf, LowerChar, IsValue, TokenChar;
  }

  lemma OneLetterParam(text: string, c: char, seen: set<string>)
    requires text == [c] + "=v" && c !in WHITESPACE && c !in ";="
    requires TokenChar(LowerChar(c)) && [LowerChar(c)] !in seen
    ensures RoundOf(text, seen) == Takes(Param([LowerChar(c)], "v"), "")
    ensures RawName(text) == [c]
  {
    BareValue("");
    assert "v" + "" == "v" && text == [c] + "=" + "v";
    hide *;
    OneLetterRound(text, c, "v", "", seen);
  }

  /** The same before another parameter. */
  lemma OneLetterParamBefore(text: string, c: char, more: string, seen: set<string>)
    requires text == [c] + "=v;" + more && c !in WHITESPACE && c !in ";="
    requires TokenChar(LowerChar(c)) && [LowerChar(c)] !in seen
    ensures RoundOf(text, seen) == Takes(Param([LowerChar(c)], "v"), more)
    ensures RawName(text) == [c]
  {
    NextOf(more);
    BareValue(";" + more);
    hide *;
    var after := "v" + (";" + more);
    assert text == [c] + "=" + after;
    OneLetterRound(text, c, after, more, seen);
  }

  lemma ReadsLetter(text: string, c: char, after: string)
    requires text == [c] + "=" + after && c !in WHITESPACE && c !in ";="
    ensures TrimLeft(text) == text && IndexAny(text, ";=") == 1 && text[..1] == [c] && text[2..] == after &&
      text[1] == '='
  {
    assert text[0] == c && text[1] == '=';
  }

  lemma BareValue(x: string)
    requires Follows(x)
    ensures ValueOf("v" + x) == "v" && LeftOf("v" + x) == Next(x) && IsValue("v")
  {
    TokenIsRead("v", x);
  }

  lemma ParametersOf(input: string, t: string, u: string, text: string)
    requires input == t + ['/'] + (u + [';'] + text) && IsToken(t) && IsToken(u)
    requires text != "" && text[|text| - 1] !in WHITESPACE
    ensures Parse(input) == Some(Record(Lower(t), Lower(u), ParseParams(text, {})))
    ensures StandardParse(input) == Some(Record(AsciiLower(t), AsciiLower(u), StandardParams(text, {})))
    ensures ParamText(input) == text
  {
    var rest := u + [';'] + text;
    TokenIsPlain(t);
    TokenIsPlain(u);
    assert input[0] == t[0] && input[|input| - 1] == text[|text| - 1];
    TrimsNothing(input);
    CutsAt(t, '/', rest);
    HasCut(t, rest);
    CutsAt(u, ';', text);
    TrimsEnd(u);
    hide TrimLeft, TrimRight, IndexAny, Before, After, IsToken, Lower, AsciiLower, ParseParams, StandardParams;
  }

  lemma ParametersOfAB(input: string, text: string)
    requires input == "a/b;" + text && text != "" && text[|text| - 1] == 'v'
    ensures Parse(input) == Some(Record("a", "b", ParseParams(text, {})))
    ensures StandardParse(input) == Some(Record("a", "b", StandardParams(text, {})))
  {
    hide *;
    var a, b := ['a'], ['b'];
    LetterIsPlain('a', a);
    LetterIsPlain('b', b);
    LetterIsPlain('v', ['v']);
    TokenIsPlain(['v']);
    SpellsAB(input, a, b, text);
    ParametersOf(input, a, b, text);
  }

  lemma SpellsAB(input: string, a: string, b: string, text: string)
    requires input == "a/b;" + text && a == ['a'] && b == ['b']
    ensures input == a + ['/'] + (b + [';'] + text) && a == "a" && b == "b"
  {
  }

  lemma LetterIsPlain(c: char, s: string)
    requires 'a' <= c <= 'z' && s == [c]
    ensures IsToken(s) && Lower(s) == AsciiLower(s) == s
  {
  }

  /** The Kelvin sign as a name: the code takes it for `k`, the standard takes nothing. */
  lemma KelvinPasses()
    ensures Parse("a/b;\U{212A}=v") == Some(Record("a", "b", [Param("k", "v")]))
    ensures StandardParse("a/b;\U{212A}=v") == Some(Record("a", "b", []))
  {
    hide Parse, StandardParse, ParseParams, StandardParams, RoundOf, StandardRound;
    var text := "\U{212A}=v";
    KelvinAlone(text);
    ParametersOfAB("a/b;\U{212A}=v", text);
  }

  lemma KelvinAlone(text: string)
    requires text == ['\U{212A}'] + "=v"
    ensures ParseParams(text, {}) == [Param("k", "v")] && StandardParams(text, {}) == []
  {
    hide RoundOf, StandardRound, RawName;
    OneLetterParam(text, '\U{212A}', {});
    RoundsAgree(text, {});
  }

  /** Spelled plainly later on with the same value, it makes no difference to the record. */
  lemma KelvinIsRepeated()
    ensures
      Parse("a/b;\U{212A}=v;k=v") == StandardParse("a/b;\U{212A}=v;k=v") ==
      Some(Record("a", "b", [Param("k", "v")]))
    ensures CodeTakes("\U{212A}=v;k=v", {}) != StandardTakes("\U{212A}=v;k=v", {})
  {
    hide Parse, StandardParse, ParseParams, StandardParams, CodeTakes, StandardTakes, RoundOf, StandardRound;
    var text := "\U{212A}=v;k=v";
    KelvinFirst(text, "k=v");
    ParametersOfAB("a/b;\U{212A}=v;k=v", text);
  }

  lemma KelvinFirst(text: string, more: string)
    requires text == ['\U{212A}'] + "=v;" + more && more == ['k'] + "=v"
    ensures ParseParams(text, {}) == StandardParams(text, {}) == [Param("k", "v")]
    ensures CodeTakes(text, {}) != StandardTakes(text, {})
  {
    hide RoundOf, StandardRound, RawName, CodeTakes, StandardTakes, Params, TakesOdd;
    var k := Param("k", "v");
    assert Odd(['\U{212A}']) by { assert ['\U{212A}'][0] == '\U{212A}'; }
    assert !Odd(['k']);
    OneLetterParamBefore(text, '\U{212A}', more, {});
    OneLetterParam(more, 'k', {});
    RoundsAgree(text, {});
    RoundsAgree(more, {});
    KelvinRounds(text, more);
    TakesWhatTheStandardTakes(text, {});
  }

  lemma KelvinRounds(text: string, more: string)
    requires text != "" && more != "" && RoundOf(text, {}) == Takes(Param("k", "v"), more) &&
      StandardRound(text, {}) == Skips(more)
    requires RoundOf(more, {}) == StandardRound(more, {}) == Takes(Param("k", "v"), "") && Odd(RawName(text))
    ensures ParseParams(text, {}) == StandardParams(text, {}) == [Param("k", "v")]
    ensures TakesOdd(CodeTakes(text, {}))
  {
    hide RoundOf, StandardRound, RawName, Odd, TakesOdd, CodeTakes;
    var k := Param("k", "v");
    SkipsSeen(more);
    assert ParseParams(text, {}) == [k] + ParseParams(more, {} + {"k"});
    assert StandardParams(text, {}) == StandardParams(more, {}) == [k] + StandardParams("", {} + {"k"});
    hide ParseParams, StandardParams;
    TakesFirst(text, {}, k, more);
    TakesOddFront(Taken(text, k), CodeTakes(more, {} + {"k"}));
  }

  lemma TakesFirst(text: string, seen: set<string>, p: Param, left: string)
    requires text != "" && RoundOf(text, seen) == Takes(p, left)
    ensures CodeTakes(text, seen) == [Taken(text, p)] + CodeTakes(left, seen + {p.name})
  {
    hide RoundOf;
  }

  /** A name that was seen is skipped. */
  lemma SkipsSeen(more: string)
    requires more != "" && RoundOf(more, {}) == Takes(Param("k", "v"), "")
    ensures ParseParams(more, {} + {"k"}) == []
  {
    hide RoundOf;
    SeenIsSkipped(more, {} + {"k"});
  }

  lemma SeenIsSkipped(more: string, seen: set<string>)
    requires more != "" && RoundOf(more, {}) == Takes(Param("k", "v"), "") && "k" in seen
    ensures RoundOf(more, seen) == Skips("")
  {
    hide IsToken, IsValue, IndexAny, TrimLeft, Lower, ValueOf, LeftOf;
  }

  // ---------------------------------------------------------------- printing

  function Render(p: Param): string {
    p.name + "=" + if IsToken(p.value) then p.value else "\"" + Escape(p.value) + "\""
  }

  function RenderAll(params: seq<Param>): string {
    if params == [] then "" else RenderAll(params[..|params| - 1]) + ";" + Render(params[|params| - 1])
  }

  function Serialize(r: Record): string {
    r.typ + "/" + r.subtype + RenderAll(r.params)
  }

  // ---------------------------------------------------------------- records

  predicate LowerToken(s: string) {
    IsToken(s) && Lower(s) == s
  }

  predicate DistinctNames(params: seq<Param>) {
    forall i, j :: 0 <= i < j < |params| ==> params[i].name != params[j].name
  }

  predicate ValidParam(p: Param) {
    LowerToken(p.name) && IsValue(p.value)
  }

  predicate ValidParams(params: seq<Param>) {
    DistinctNames(params) && forall i :: 0 <= i < |params| ==> ValidParam(params[i])
  }

  predicate ValidRecord(r: Record) {
    LowerToken(r.typ) && LowerToken(r.subtype) && ValidParams(r.params)
  }

  lemma PrependValid(p: Param, more: seq<Param>)
    requires ValidParam(p) && ValidParams(more)
    requires forall q :: q in more ==> q.name != p.name
    ensures ValidParams([p] + more)
  {
    var all := [p] + more;
    assert forall i :: 0 < i < |all| ==> all[i] == more[i - 1] && all[i] in more;
  }

  lemma {:induction false} ParamsAreValid(rest: string, seen: set<string>)
    ensures ValidParams(ParseParams(rest, seen))
    ensures forall p :: p in ParseParams(rest, seen) ==> p.name !in seen
    decreases |rest|
  {
    hide ValidParams, RoundOf, IsToken, IsValue, Lower;
    if rest == "" {
      NoParams();
    } else {
      match RoundOf(rest, seen)
      case Ends => NoParams();
      case Skips(left) => ParamsAreValid(left, seen);
      case Takes(p, left) =>
        ParamsAreValid(left, seen + {p.name});
        PrependValid(p, ParseParams(left, seen + {p.name}));
    }
  }

  lemma NoParams()
    ensures ValidParams([])
  {
  }

  /** Whatever parses, parses to a record in normal form. */
  lemma ParsedIsValid(input: string)
    ensures Parse(input).Some? ==> ValidRecord(Parse(input).value)
  {
    if Parse(input).Some? {
      var s := TrimRight(TrimLeft(input));
      var rest := After(s, '/');
      LowerTwice(Before(s, '/'));
      LowerTwice(TrimRight(Before(rest, ';')));
      ParamsAreValid(After(rest, ';'), {});
    }
  }

  // ---------------------------------------------------------------- what is printed parses back

  lemma TokenCharIsPlain(c: char)
    requires TokenChar(c)
    ensures c !in WHITESPACE && c !in ";=/\""
  {
  }

  /** Cutting at a character that is not in the first part. */
  lemma CutsAt(first: string, c: char, rest: string)
    requires c !in first
    ensures Before(first, c) == first && After(first, c) == ""
    ensures Before(first + [c] + rest, c) == first && After(first + [c] + rest, c) == rest
  {
    var s := first + [c] + rest;
    assert IndexAny(first, [c]) < 0;
    assert s[|first|] == c;
    assert forall i :: 0 <= i < |first| ==> s[i] == first[i];
    assert IndexAny(s, [c]) == |first|;
  }

  /** What may follow a parameter: nothing, or the next one. */
  predicate Follows(x: string) {
    x == "" || x[0] == ';'
  }

  function Next(x: string): string {
    if x == "" then "" else x[1..]
  }

  function RenderValue(value: string): string {
    if IsToken(value) then value else "\"" + Escape(value) + "\""
  }

  lemma TokenIsPlain(s: string)
    requires IsToken(s)
    ensures ';' !in s && '=' !in s && '/' !in s && '"' !in s
    ensures s[0] !in WHITESPACE && s[|s| - 1] !in WHITESPACE
  {
    hide TokenChar;
    forall i | 0 <= i < |s| ensures s[i] !in WHITESPACE && s[i] !in ";=/\"" {
      TokenCharIsPlain(s[i]);
    }
  }

  lemma TokenIsRead(value: string, x: string)
    requires IsToken(value) && Follows(x)
    ensures ValueOf(value + x) == value && LeftOf(value + x) == Next(x)
  {
    TokenIsPlain(value);
    hide TokenChar, IsToken, IndexAny, Collect;
    var after := value + x;
    assert after[0] == value[0] && value[0] in value;
    CutsAt(value, ';', Next(x));
    assert after == if x == "" then value else value + [';'] + Next(x);
    assert TrimRight(value) == value;
  }

  lemma QuotedIsRead(value: string, x: string)
    requires Follows(x)
    ensures ValueOf("\"" + Escape(value) + "\"" + x) == value && LeftOf("\"" + Escape(value) + "\"" + x) == Next(x)
  {
    hide Collect, Escape, IndexAny;
    var after := "\"" + Escape(value) + "\"" + x;
    CollectsWhatIsEscaped(value, x);
    assert after[1..] == Escape(value) + "\"" + x;
    FollowsAfter(x);
  }

  lemma FollowsAfter(x: string)
    requires Follows(x)
    ensures After(x, ';') == Next(x)
  {
    CutsAt("", ';', Next(x));
    assert x == if x == "" then "" else "" + [';'] + Next(x);
  }

  /** A parameter's name, up to the `=`. */
  lemma NameIsRead(name: string, after: string)
    requires LowerToken(name)
    ensures
      var text := name + "=" + after;
      && text != "" && TrimLeft(text) == text && IndexAny(text, ";=") == |name|
      && text[..|name|] == name && text[|name| + 1..] == after && text[|name|] == '='
  {
    TokenIsPlain(name);
    hide TokenChar, IsToken;
    var text := name + "=" + after;
    assert text[0] == name[0];
    forall i | 0 <= i < |name| ensures text[i] == name[i] && text[i] !in ";=" {
      assert name[i] in name;
    }
    assert text[|name|] == '=';
  }

  lemma RoundIsRead(p: Param, x: string, seen: set<string>)
    requires ValidParam(p) && p.name !in seen && Follows(x)
    ensures Render(p) + x != "" && RoundOf(Render(p) + x, seen) == Takes(p, Next(x))
  {
    var after := RenderValue(p.value) + x;
    var text := Render(p) + x;
    Assoc(p.name + "=", RenderValue(p.value), x);
    assert text == p.name + "=" + after;
    NameIsRead(p.name, after);
    if IsToken(p.value) {
      TokenIsRead(p.value, x);
    } else {
      QuotedIsRead(p.value, x);
      assert after[0] == '"';
    }
    assert p.value == "" ==> after[0] == '"';
    hide RenderValue, ValueOf, LeftOf, IndexAny, IsValue, IsToken, Follows, TrimLeft, Render, Next, Lower;
    assert KeepsParam(p.name, after, seen);
  }

  lemma ParamIsRead(p: Param, x: string, seen: set<string>)
    requires ValidParam(p) && p.name !in seen && Follows(x)
    ensures ParseParams(Render(p) + x, seen) == [p] + ParseParams(Next(x), seen + {p.name})
  {
    RoundIsRead(p, x, seen);
    hide RoundOf, Render, Next, ValidParam, Follows;
  }

  lemma {:induction false} RenderFront(params: seq<Param>)
    requires params != []
    ensures RenderAll(params) == ";" + (Render(params[0]) + RenderAll(params[1..]))
  {
    hide Render;
    var n := |params| - 1;
    if n > 0 {
      RenderFront(params[..n]);
      assert params[..n][1..] == params[1..][..n - 1];
      assert params[1..][n - 1] == params[n];
    }
  }

  lemma NextOf(y: string)
    ensures Follows(";" + y) && Next(";" + y) == y
  {
  }

  lemma {:induction false} ParamsAreRead(params: seq<Param>, seen: set<string>)
    requires ValidParams(params)
    requires forall p :: p in params ==> p.name !in seen
    ensures Follows(RenderAll(params)) && ParseParams(Next(RenderAll(params)), seen) == params
  {
    if params != [] {
      RestIsValid(params);
      hide ValidParams, Render, RenderAll, ParseParams, Follows, Next;
      var p, more := params[0], params[1..];
      ParamsAreRead(more, seen + {p.name});
      RenderFront(params);
      ParamIsRead(p, RenderAll(more), seen);
      NextOf(Render(p) + RenderAll(more));
      assert params == [p] + more;
    }
  }

  lemma RestIsValid(params: seq<Param>)
    requires ValidParams(params) && params != []
    ensures ValidParams(params[1..]) && ValidParam(params[0])
    ensures forall q :: q in params[1..] ==> q.name != params[0].name
  {
  }

  lemma RenderedEnd(params: seq<Param>)
    requires params != []
    ensures RenderAll(params) != "" && RenderAll(params)[|RenderAll(params)| - 1] !in WHITESPACE
  {
    var p := params[|params| - 1];
    var v := RenderValue(p.value);
    assert Render(p) == p.name + "=" + v;
    if IsToken(p.value) {
      TokenIsPlain(p.value);
    }
    assert v != "" && v[|v| - 1] !in WHITESPACE;
    assert RenderAll(params)[|RenderAll(params)| - 1] == v[|v| - 1];
  }

  lemma TrimsNothing(s: string)
    requires s != "" && s[0] !in WHITESPACE && s[|s| - 1] !in WHITESPACE
    ensures TrimRight(TrimLeft(s)) == s
  {
  }

  /** A record in normal form, printed, parses to itself: type, subtype and parameters in order. */
  lemma PrintedParsesBack(r: Record)
    requires ValidRecord(r)
    ensures Parse(Serialize(r)) == Some(r)
  {
    var tail := RenderAll(r.params);
    var s := Serialize(r);
    ParamsAreRead(r.params, {});
    TokenIsPlain(r.typ);
    TokenIsPlain(r.subtype);
    if r.params != [] {
      RenderedEnd(r.params);
    }
    hide RenderAll, ParseParams, TokenChar, IsToken, IndexAny, TrimLeft, TrimRight, Lower, Before, After, Follows;
    EndsOf(r.typ, r.subtype, tail);
    TrimsNothing(s);
    TrimsEnd(r.subtype);
    CutsAt(r.typ, '/', r.subtype + tail);
    HasCut(r.typ, r.subtype + tail);
    CutsAt(r.subtype, ';', Next(tail));
    FollowsTail(r.subtype, tail);
  }

  lemma EndsOf(typ: string, subtype: string, tail: string)
    requires typ != "" && subtype != ""
    ensures
      var s := typ + "/" + subtype + tail;
      && s == typ + ['/'] + (subtype + tail)
      && s[0] == typ[0]
      && s[|s| - 1] == if tail == "" then subtype[|subtype| - 1] else tail[|tail| - 1]
  {
  }

  lemma FollowsTail(subtype: string, tail: string)
    requires Follows(tail)
    ensures subtype + tail == if tail == "" then subtype else subtype + [';'] + Next(tail)
  {
  }

  lemma TrimsEnd(s: string)
    requires s != "" && s[|s| - 1] !in WHITESPACE
    ensures TrimRight(s) == s
  {
  }

  lemma HasCut(first: string, rest: string)
    ensures IndexAny(first + ['/'] + rest, "/") >= 0
  {
    assert (first + ['/'] + rest)[|first|] == '/';
  }

  // ---------------------------------------------------------------- serializeMIMEType

  /** The quoting NewReplacer does. */
  method Quote(value: string) returns (out: string)
    ensures out == Escape(value)
  {
    out := "";
    for i := 0 to |value|
      invariant out == Escape(value[..i])
    {
      var c := value[i];
      assert value[..i + 1][..i] == value[..i];
      out := out + if c == '\\' || c == '"' then ['\\', c] else [c];
    }
    assert value[..|value|] == value;
  }

  /** serializeMIMEType: it prints what it parses, so what it prints it prints again unchanged. */
  method SerializeMIMEType(input: string) returns (r: Option<string>)
    ensures r == if Parse(input).Some? then Some(Serialize(Parse(input).value)) else None
    ensures r.Some? ==> Parse(r.value) == Parse(input) && Some(Serialize(Parse(r.value).value)) == r
  {
    ParsedIsValid(input);
    if Parse(input).Some? {
      PrintedParsesBack(Parse(input).value);
    }
    var s := TrimRight(TrimLeft(input));
    if IndexAny(s, "/") < 0 || !IsToken(Before(s, '/')) {
      return None;
    }
    var rest := After(s, '/');
    var subtype := TrimRight(Before(rest, ';'));
    if !IsToken(subtype) {
      return None;
    }
    var params := SerializeParams(After(rest, ';'));
    return Some(Lower(Before(s, '/')) + "/" + Lower(subtype) + params);
  }

  lemma Appends(done: seq<Param>, p: Param)
    ensures RenderAll(done + [p]) == RenderAll(done) + ";" + p.name + "=" + RenderValue(p.value)
  {
    assert (done + [p])[..|done|] == done;
    assert Render(p) == p.name + "=" + RenderValue(p.value);
  }

  /** What is parsed so far, and what parsing the rest will add. */
  ghost predicate Parsed(input: string, done: seq<Param>, rest: string, seen: set<string>) {
    ParseParams(input, {}) == done + ParseParams(rest, seen)
  }

  lemma ParsesOn(input: string, done: seq<Param>, rest: string, seen: set<string>)
    requires Parsed(input, done, rest, seen)
    ensures rest == "" ==> ParseParams(input, {}) == done
    ensures rest != "" ==>
      var r := RoundOf(rest, seen);
      && (r.Ends? ==> ParseParams(input, {}) == done)
      && (r.Skips? ==> Parsed(input, done, r.rest, seen))
      && (r.Takes? ==> Parsed(input, done + [r.param], r.rest, seen + {r.param.name}))
  {
    hide RoundOf;
    assert done + [] == done;
    if rest != "" && RoundOf(rest, seen).Takes? {
      var p, more := RoundOf(rest, seen).param,
        ParseParams(RoundOf(rest, seen).rest, seen + {RoundOf(rest, seen).param.name});
      assert done + ([p] + more) == (done + [p]) + more;
    }
  }

  /** A value, up to the `;` after it; a bare one that is empty is no value at all. */
  method ReadValue(after: string) returns (value: string, rest: string, present: bool)
    ensures value == ValueOf(after) && rest == LeftOf(after)
    ensures present <==> value != "" || (after != "" && after[0] == '"')
  {
    hide IndexAny, Collect;
    if after != "" && after[0] == '"' {
      value, rest := QuotedString(after);
      return value, After(rest, ';'), true;
    }
    value, rest := TrimRight(Before(after, ';')), After(after, ';');
    present := value != "";
  }

  /** One round of the loop, up to deciding whether the parameter is kept. */
  method ReadParam(input: string, seen: set<string>) returns (r: Round)
    requires input != ""
    ensures r == RoundOf(input, seen)
  {
    NoEmptyToken();
    hide IsToken, IsValue, IndexAny, TrimLeft, Lower, ValueOf, LeftOf;
    var rest := TrimLeft(input);
    var end := IndexAny(rest, ";=");
    if end < 0 {
      return Ends;
    }
    var name := Lower(rest[..end]);
    var separator := rest[end];
    rest := rest[end + 1..];
    if separator == ';' {
      return Skips(rest);
    }
    var value, left, present := ReadValue(rest);
    if !present {
      return Skips(left);
    }
    if name == "" || !IsToken(name) || name in seen || !IsValue(value) {
      return Skips(left);
    }
    return Takes(Param(name, value), left);
  }

  method WriteValue(value: string) returns (out: string)
    ensures out == RenderValue(value)
  {
    if value != "" && IsToken(value) {
      return value;
    }
    var escaped := Quote(value);
    return "\"" + escaped + "\"";
  }

  method WriteParam(out: string, p: Param, ghost done: seq<Param>) returns (more: string)
    requires out == RenderAll(done)
    ensures more == RenderAll(done + [p])
  {
    Appends(done, p);
    hide RenderAll, RenderValue;
    var value := WriteValue(p.value);
    return out + ";" + p.name + "=" + value;
  }

  /** The loop over the parameters. */
  method SerializeParams(input: string) returns (out: string)
    ensures out == RenderAll(ParseParams(input, {}))
  {
    hide Parsed, ParseParams, RoundOf, RenderAll, Render, RenderValue, IsToken, IsValue, Lower;
    out := "";
    var rest := input;
    var seen: set<string> := {};
    ghost var done: seq<Param> := [];
    NothingParsed(input);
    while rest != ""
      invariant out == RenderAll(done) && Parsed(input, done, rest, seen)
      decreases |rest|
    {
      ParsesOn(input, done, rest, seen);
      var r := ReadParam(rest, seen);
      match r {
        case Ends =>
          return;
        case Skips(left) =>
          rest := left;
        case Takes(p, left) =>
          out := WriteParam(out, p, done);
          done := done + [p];
          rest, seen := left, seen + {p.name};
      }
    }
    ParsesOn(input, done, rest, seen);
  }

  lemma NothingParsed(input: string)
    ensures RenderAll([]) == "" && Parsed(input, [], input, {})
  {
  }

  lemma NoEmptyToken()
    ensures !IsToken("")
  {
  }
}
