/**
 Response headers set by loads and actions (loadevent.go) and relayed, piece by piece, to the
 process that renders the page in development (prerender_request.go): each effect once, with
 Server-Timing the one header that accumulates. Names are in lower case throughout.
 */
module HeaderRelay {

  const TIMING := "server-timing"
  const COOKIE := "set-cookie"

  type Headers = map<string, string>

  predicate HasPrefix(s: string, p: string) {
    |p| <= |s| && s[..|p|] == p
  }

  /** Header.Get: an absent header reads as empty. */
  function Get(h: Headers, name: string): string {
    if name in h then h[name] else ""
  }

  // ---------------------------------------------------------------- the two operations, as functions

  /** SetHeader refuses: a cookie, a sealed response, or a header already set that does not accumulate. */
  predicate Refuses(h: Headers, sealed: bool, name: string) {
    name == COOKIE || sealed || (Get(h, name) != "" && name != TIMING)
  }

  /** The headers after SetHeader accepts. */
  function With(h: Headers, name: string, value: string): Headers {
    h[name := if Get(h, name) != "" then h[name] + ", " + value else value]
  }

  /** Server-Timing has been added to since it was relayed. */
  predicate Added(previous: Headers, h: Headers, name: string)
    requires name in previous
  {
    name == TIMING && Get(h, name) != previous[name] && HasPrefix(Get(h, name), previous[name] + ", ")
  }

  /** What a relay sends: headers not sent before, and what Server-Timing has gained. */
  function Delta(previous: Headers, h: Headers): Headers {
    map name | name in h && (name !in previous || Added(previous, h, name)) ::
      if name in previous then h[name][|previous[name]| + 2..] else h[name]
  }

  /** What the receiver makes of a delta: Server-Timing is added to, any other header is set. */
  function Applied(receiver: Headers, delta: Headers): Headers {
    map name | name in receiver.Keys + delta.Keys ::
      if name !in delta then receiver[name]
      else if name == TIMING && name in receiver then receiver[name] + ", " + delta[name]
      else delta[name]
  }

  // ---------------------------------------------------------------- runs

  /** A response state, what of it has been relayed, and what the receiver has rebuilt. */
  datatype State = State(headers: Headers, sealed: bool, previous: Headers, receiver: Headers)

  datatype Op = SetHeader(name: string, value: string) | Seal | Relay

  function Next(s: State, op: Op): State {
    match op
    case SetHeader(name, value) =>
      if Refuses(s.headers, s.sealed, name) then s else s.(headers := With(s.headers, name, value))
    case Seal => s.(sealed := true)
    case Relay => s.(receiver := Applied(s.receiver, Delta(s.previous, s.headers)), previous := s.headers)
  }

  function Run(ops: seq<Op>): State {
    if ops == [] then State(map[], false, map[], map[]) else Next(Run(ops[..|ops| - 1]), ops[|ops| - 1])
  }

  /**
   A call that sets a header the receiver has already been sent empty. The one such value that is
   relayed all the same is a Server-Timing that begins as an addition would.
   */
  predicate Clobbers(s: State, op: Op) {
    && op.SetHeader? && !Refuses(s.headers, s.sealed, op.name)
    && op.name in s.previous && Get(s.headers, op.name) == "" && op.value != ""
    && !(op.name == TIMING && HasPrefix(op.value, ", "))
  }

  predicate AnyClobbers(ops: seq<Op>) {
    ops != [] && (AnyClobbers(ops[..|ops| - 1]) || Clobbers(Run(ops[..|ops| - 1]), ops[|ops| - 1]))
  }

  /** A relayed header is as it was, or a Server-Timing added to. */
  predicate Kept(s: State, name: string)
    requires name in s.previous
  {
    name in s.headers &&
    (s.headers[name] == s.previous[name] || (name == TIMING && HasPrefix(s.headers[name], s.previous[name] + ", ")))
  }

  predicate Shaped(s: State) {
    s.previous.Keys <= s.headers.Keys && s.receiver.Keys == s.previous.Keys
  }

  predicate Whole(s: State) {
    && s.receiver == s.previous
    && forall name :: name in s.previous ==> Kept(s, name)
  }

  /** A header the receiver has wrong for good, or will once it is relayed. */
  predicate Spoiled(s: State, name: string) {
    && name in s.previous && name in s.headers && name in s.receiver
    && if s.receiver[name] == s.previous[name]
       then s.previous[name] == "" && s.headers[name] != "" && !(name == TIMING && HasPrefix(s.headers[name], ", "))
       else s.previous[name] != "" && Kept(s, name)
  }

  lemma {:induction false} RunIsShaped(ops: seq<Op>)
    ensures Shaped(Run(ops))
  {
    if ops != [] {
      RunIsShaped(ops[..|ops| - 1]);
    }
  }

  lemma AddedIsKept(s: State, name: string)
    requires Shaped(s) && name in s.previous && Kept(s, name)
    ensures
      var t := Next(s, Relay);
      && name in t.receiver
      && (s.headers[name] == s.previous[name] ==> t.receiver[name] == s.receiver[name])
      && (s.headers[name] != s.previous[name] ==>
            exists more ::
              s.headers[name] == s.previous[name] + ", " + more &&
              t.receiver[name] == s.receiver[name] + ", " + more)
  {
    if s.headers[name] != s.previous[name] {
      var before := s.previous[name] + ", ";
      var more := s.headers[name][|before|..];
      assert s.headers[name] == before + more;
      assert Added(s.previous, s.headers, name);
    }
  }

  lemma StaysWhole(s: State, op: Op)
    requires Shaped(s) && Whole(s) && !Clobbers(s, op)
    ensures Whole(Next(s, op))
  {
    var t := Next(s, op);
    match op
    case Seal =>
      assert forall name :: name in s.previous ==> Kept(s, name) && Kept(t, name);
    case Relay =>
      forall name | name in s.headers ensures name in t.receiver && t.receiver[name] == s.headers[name] {
        if name in s.previous {
          assert Kept(s, name);
          AddedIsKept(s, name);
        }
      }
      assert t.receiver == t.previous;
    case SetHeader(n, value) =>
      forall name | name in s.previous ensures Kept(t, name) {
        assert Kept(s, name);
        if name == n && t != s {
          KeptWith(s, name, value);
        }
      }
  }

  lemma KeptWith(s: State, name: string, value: string)
    requires Shaped(s) && name in s.previous && Kept(s, name)
    requires !Refuses(s.headers, s.sealed, name) && !Clobbers(s, SetHeader(name, value))
    ensures Kept(s.(headers := With(s.headers, name, value)), name)
  {
    var after := With(s.headers, name, value)[name];
    if s.headers[name] != "" {
      assert after == s.headers[name] + ", " + value;
      if s.headers[name] == s.previous[name] {
        assert HasPrefix(after, s.previous[name] + ", ");
      } else {
        assert after[..|s.previous[name]| + 2] == s.headers[name][..|s.previous[name]| + 2];
      }
    } else {
      assert s.previous[name] == "";
      assert "" + ", " == ", ";
    }
  }

  lemma ClobberSpoils(s: State, op: Op)
    requires Shaped(s) && Clobbers(s, op)
    requires Whole(s) || exists name :: Spoiled(s, name)
    ensures exists name :: Spoiled(Next(s, op), name)
  {
    var t := Next(s, op);
    if Whole(s) {
      assert Kept(s, op.name);
      assert s.previous[op.name] == "";
      assert Spoiled(t, op.name);
    } else {
      var name :| Spoiled(s, name);
      StaysSpoiled(s, op, name);
    }
  }

  lemma StaysSpoiled(s: State, op: Op, name: string)
    requires Shaped(s) && Spoiled(s, name)
    ensures Spoiled(Next(s, op), name)
  {
    match op
    case Seal =>
    case Relay => RelayedSpoiled(s, name);
    case SetHeader(n, value) =>
      if n == name && !Refuses(s.headers, s.sealed, name) {
        SetSpoiled(s, name, value);
      }
  }

  /** What does not begin as an addition would does not come to by being added to. */
  lemma NoPrefixGrows(h: string, value: string)
    requires h != "" && !HasPrefix(h, ", ")
    ensures !HasPrefix(h + ", " + value, ", ")
  {
    var after := h + ", " + value;
    assert after[..2] == if |h| > 1 then h[..2] else h + ",";
    assert |h| == 1 ==> (h + ",")[1] == ',';
    assert ", "[1] == ' ';
  }

  lemma SetSpoiled(s: State, name: string, value: string)
    requires Shaped(s) && Spoiled(s, name) && !Refuses(s.headers, s.sealed, name)
    ensures Spoiled(s.(headers := With(s.headers, name, value)), name)
  {
    var h := s.headers[name];
    assert h != "" by {
      if s.receiver[name] != s.previous[name] && h != s.previous[name] {
        assert HasPrefix(h, s.previous[name] + ", ");
      }
    }
    var after := h + ", " + value;
    assert With(s.headers, name, value)[name] == after && name == TIMING;
    if s.receiver[name] == s.previous[name] {
      NoPrefixGrows(h, value);
    } else {
      assert !Clobbers(s, SetHeader(name, value));
      KeptWith(s, name, value);
    }
  }

  lemma EmptyIsSpoiled(s: State, name: string)
    requires Shaped(s) && Spoiled(s, name) && s.receiver[name] == s.previous[name]
    ensures Spoiled(Next(s, Relay), name)
  {
    var t := Next(s, Relay);
    assert "" + ", " == ", ";
    assert !Added(s.previous, s.headers, name);
    assert t.receiver[name] == "";
  }

  lemma RelayedSpoiled(s: State, name: string)
    requires Shaped(s) && Spoiled(s, name)
    ensures Spoiled(Next(s, Relay), name)
  {
    if s.receiver[name] == s.previous[name] {
      EmptyIsSpoiled(s, name);
    } else {
      hide Next, Kept, Spoiled, Shaped;
      SpoiledIsKept(s, name);
      AddedIsKept(s, name);
      StaysDifferent(s, name);
    }
  }

  lemma SpoiledIsKept(s: State, name: string)
    requires Spoiled(s, name) && s.receiver[name] != s.previous[name]
    ensures Kept(s, name) && s.previous[name] != ""
  {
    hide Kept;
  }

  /** What a relay adds to both sides leaves them different. */
  lemma StaysDifferent(s: State, name: string)
    requires name in s.previous && name in s.headers && name in s.receiver && name in Next(s, Relay).receiver
    requires s.receiver[name] != s.previous[name] && s.previous[name] != ""
    requires
      var t := Next(s, Relay);
      if s.headers[name] == s.previous[name] then t.receiver[name] == s.receiver[name]
      else
        exists more ::
          s.headers[name] == s.previous[name] + ", " + more && t.receiver[name] == s.receiver[name] + ", " + more
    ensures Spoiled(Next(s, Relay), name)
  {
    var t := Next(s, Relay);
    assert t.previous == s.headers && t.headers == s.headers;
    hide Next, HasPrefix;
    if s.headers[name] != s.previous[name] {
      var more :|
        s.headers[name] == s.previous[name] + ", " + more && t.receiver[name] == s.receiver[name] + ", " + more;
      AddsToBoth(s.previous[name], s.receiver[name], more);
    }
  }

  lemma AddsToBoth(a: string, b: string, more: string)
    requires a != b
    ensures a + ", " + more != b + ", " + more && a + ", " + more != ""
  {
    SuffixCancels(a, b, ", " + more);
    assert a + ", " + more == a + (", " + more) && b + ", " + more == b + (", " + more);
  }

  lemma SuffixCancels(a: string, b: string, more: string)
    ensures a + more == b + more ==> a == b
  {
    assert (a + more)[..|a + more| - |more|] == a;
    assert (b + more)[..|b + more| - |more|] == b;
  }

  lemma {:induction false} WholeUnlessClobbered(ops: seq<Op>)
    ensures !AnyClobbers(ops) ==> Whole(Run(ops))
    ensures AnyClobbers(ops) ==> exists name :: Spoiled(Run(ops), name)
  {
    if ops != [] {
      var n := |ops| - 1;
      var s := Run(ops[..n]);
      WholeUnlessClobbered(ops[..n]);
      RunIsShaped(ops[..n]);
      if AnyClobbers(ops[..n]) {
        var name :| Spoiled(s, name);
        StaysSpoiled(s, ops[n], name);
        assert Spoiled(Run(ops), name);
      } else if Clobbers(s, ops[n]) {
        ClobberSpoils(s, ops[n]);
        assert Run(ops) == Next(s, ops[n]);
      } else {
        StaysWhole(s, ops[n]);
      }
    }
  }

  /**
   Over any run, a relay leaves the receiver with exactly the headers set so far if and only if no
   call set a header that had already been relayed empty.
   */
  lemma RelayRebuilds(ops: seq<Op>)
    ensures Run(ops + [Relay]).receiver == Run(ops + [Relay]).headers <==> !AnyClobbers(ops)
  {
    var all := ops + [Relay];
    assert all[..|ops|] == ops;
    WholeUnlessClobbered(all);
    if AnyClobbers(ops) {
      var name :| Spoiled(Run(all), name);
      assert Run(all).previous == Run(all).headers;
      assert Run(all).receiver[name] != Run(all).headers[name];
    }
  }

  /** In particular, when every value set is non-empty. */
  lemma {:induction false} NonEmptyNeverClobbers(ops: seq<Op>)
    requires forall i :: 0 <= i < |ops| && ops[i].SetHeader? ==> ops[i].value != ""
    ensures !AnyClobbers(ops)
    ensures forall name :: name in Run(ops).headers ==> Run(ops).headers[name] != ""
  {
    if ops != [] {
      NonEmptyNeverClobbers(ops[..|ops| - 1]);
      RunIsShaped(ops[..|ops| - 1]);
    }
  }

  /** Nothing is relayed twice: a relay with nothing set since sends nothing. */
  lemma RelayedOnce(s: State)
    ensures Delta(Next(s, Relay).previous, Next(s, Relay).headers) == map[]
  {
  }

  /** The smallest run that goes wrong: an empty header relayed and then set. */
  lemma EmptyValueIsLost()
    ensures
      var ops := [SetHeader("x", ""), Relay, SetHeader("x", "1"), Relay];
      Run(ops).headers == map["x" := "1"] && Run(ops).receiver == map["x" := ""]
  {
    var ops := [SetHeader("x", ""), Relay, SetHeader("x", "1"), Relay];
    assert ops[..3] == [SetHeader("x", ""), Relay, SetHeader("x", "1")] && ops[..3][..2] == [SetHeader("x", ""), Relay];
    assert ops[..3][..2][..1] == [SetHeader("x", "")] && ops[..3][..2][..1][..0] == [];
    var a := Run([SetHeader("x", "")]);
    assert a == State(map["x" := ""], false, map[], map[]);
    var b := Next(a, Relay);
    assert b == State(map["x" := ""], false, map["x" := ""], map["x" := ""]);
    var c := Next(b, SetHeader("x", "1"));
    assert c == State(map["x" := "1"], false, map["x" := ""], map["x" := ""]);
    assert Next(c, Relay).receiver == map["x" := ""];
  }

  // ---------------------------------------------------------------- responseState and its relay

  datatype Outcome = Ok | Refused(message: string)

  class ResponseState {
    var headers: Headers
    var sealed: bool

    /** What of these headers has been relayed: headerEffects, for this state. */
    var previous: Headers

    /** What a receiver has made of the deltas relayed. */
    ghost var receiver: Headers

    ghost function Abstract(): State
      reads this
    {
      State(headers, sealed, previous, receiver)
    }

    constructor ()
      ensures Abstract() == Run([])
    {
      headers, sealed, previous, receiver := map[], false, map[], map[];
    }

    /** SetHeader. */
    method Set(name: string, value: string) returns (r: Outcome)
      modifies this`headers
      ensures Abstract() == Next(old(Abstract()), SetHeader(name, value))
      ensures r.Refused? <==> Refuses(old(headers), sealed, name)
      ensures r.Ok? ==> name in headers
    {
      if name == COOKIE {
        return Refused("use SetCookie to set cookies, not SetHeader");
      }
      if sealed {
        return Refused("headers can no longer be set");
      }
      var existing := Get(headers, name);
      if existing != "" {
        if name != TIMING {
          return Refused("the header is already set");
        }
        headers := headers[name := existing + ", " + value];
        return Ok;
      }
      headers := headers[name := value];
      return Ok;
    }

    /** applyTo stops accepting headers. */
    method Seal()
      modifies this`sealed
      ensures Abstract() == Next(old(Abstract()), Op.Seal)
    {
      sealed := true;
    }

    /** developmentHeaders: the loop over what was relayed before, in whatever order. */
    method DevelopmentHeaders() returns (delta: Headers)
      modifies this`previous, this`receiver
      ensures delta == Delta(old(previous), headers)
      ensures Abstract() == Next(old(Abstract()), Relay)
    {
      hide Delta, Applied;
      delta := Gained();
      receiver := Applied(receiver, delta);
      previous := headers;
    }

    /** The loop over what was relayed before. */
    method Gained() returns (delta: Headers)
      ensures delta == Delta(previous, headers)
    {
      delta := headers;
      var left := previous.Keys;
      while left != {}
        invariant left <= previous.Keys
        invariant delta.Keys == set n | n in headers && (n !in previous || n in left || Added(previous, headers, n))
        invariant forall n :: n in delta ==>
          delta[n] == if n in previous && n !in left then headers[n][|previous[n]| + 2..] else headers[n]
        decreases |left|
      {
        var name :| name in left;
        left := left - {name};
        if name == TIMING {
          var before := previous[name];
          var after := Get(delta, name);
          if after != before && HasPrefix(after, before + ", ") {
            assert name in headers by {
              assert |after| > 0;
            }
            delta := delta[name := after[|before + ", "|..]];
            continue;
          }
        }
        delta := delta - {name};
      }
    }
  }
}
