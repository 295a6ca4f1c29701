/**
 The writer that carries trace annotations beside a callback's response (tracing_native.go): it
 holds a small body back so that annotations fit in a header, and declares a trailer when it
 cannot. Bytes are chars.
 */
module TraceWriter {
  import opened Wrappers

  /** nativeTraceBudget and nativeTraceHold. */
  const BUDGET := 3072
  const HOLD := 2048

  /** A header value: text as given, or text the writer has put in base64. */
  datatype HeaderValue = Text(text: string) | Base64(raw: string)

  type Header = map<string, seq<HeaderValue>>

  /** The characters a value takes on the wire. */
  function WireLength(v: HeaderValue): nat {
    match v
    case Text(text) => |text|
    case Base64(raw) => (|raw| + 2) / 3 * 4
  }

  /** Header.Get: the first value, or the empty string. */
  function Get(h: Header, key: string): HeaderValue {
    if key in h && h[key] != [] then h[key][0] else Text("")
  }

  function Set(h: Header, key: string, value: HeaderValue): Header {
    h[key := [value]]
  }

  /** Header.Add. */
  function AddTo(h: Header, key: string, value: HeaderValue): Header {
    h[key := (if key in h then h[key] else []) + [value]]
  }

  // ---------------------------------------------------------------- annotations

  /** What a list of operations takes of the budget, each with the comma after it. */
  function Weight(ops: seq<string>): nat {
    if ops == [] then 0 else Weight(ops[..|ops| - 1]) + |ops[|ops| - 1]| + 1
  }

  lemma {:induction false} WeightAppends(a: seq<string>, b: seq<string>)
    ensures Weight(a + b) == Weight(a) + Weight(b)
  {
    if b == [] {
      assert a + b == a;
    } else {
      var n := |b| - 1;
      WeightAppends(a, b[..n]);
      assert (a + b)[..|a + b| - 1] == a + b[..n];
    }
  }

  /** The JSON array of some operations, each already JSON. */
  function Array(ops: seq<string>): string {
    "[" + Joined(ops) + "]"
  }

  function Joined(ops: seq<string>): string {
    if ops == [] then ""
    else if |ops| == 1 then ops[0]
    else Joined(ops[..|ops| - 1]) + "," + ops[|ops| - 1]
  }

  lemma {:induction false} ArrayWeighs(ops: seq<string>)
    requires ops != []
    ensures |Array(ops)| == Weight(ops) + 1
  {
    if |ops| > 1 {
      ArrayWeighs(ops[..|ops| - 1]);
    } else {
      assert ops[..0] == [];
    }
  }

  /** The operations that fit, taken greedily in order, starting from what is used already. */
  function Fitting(ops: seq<string>, used: nat): seq<string>
    decreases |ops|
  {
    if ops == [] then []
    else if used + |ops[0]| + 1 > BUDGET then Fitting(ops[1..], used)
    else [ops[0]] + Fitting(ops[1..], used + |ops[0]| + 1)
  }

  lemma {:induction false} FittingFits(ops: seq<string>, used: nat)
    requires used <= BUDGET
    ensures used + Weight(Fitting(ops, used)) <= BUDGET
    ensures used + Weight(ops) <= BUDGET ==> Fitting(ops, used) == ops
    decreases |ops|
  {
    if ops != [] {
      var rest := ops[1..];
      assert ops == [ops[0]] + rest;
      WeightAppends([ops[0]], rest);
      assert Weight([ops[0]]) == |ops[0]| + 1 by { assert [ops[0]][..0] == []; }
      if used + |ops[0]| + 1 > BUDGET {
        FittingFits(rest, used);
      } else {
        FittingFits(rest, used + |ops[0]| + 1);
        WeightAppends([ops[0]], Fitting(rest, used + |ops[0]| + 1));
      }
    }
  }

  /** nativeTraceSink. */
  class Sink {
    var ops: seq<string>
    var bytes: nat

    ghost predicate Valid()
      reads this
    {
      bytes == Weight(ops) && bytes <= BUDGET - 2
    }

    constructor ()
      ensures Valid() && ops == []
    {
      ops, bytes := [], 0;
    }

    /** append: an operation that does not marshal or does not fit is dropped, and nothing else is. */
    method Append(raw: Option<string>)
      requires Valid()
      modifies this
      ensures Valid()
      ensures
        var fits := raw.Some? && old(Weight(ops)) + |raw.value| + 1 <= BUDGET - 2;
        ops == if fits then old(ops) + [raw.value] else old(ops)
    {
      if raw.None? || |raw.value| + 2 > BUDGET {
        return;
      }
      if bytes + |raw.value| + 1 > BUDGET - 2 {
        return;
      }
      WeightAppends(ops, [raw.value]);
      assert Weight([raw.value]) == |raw.value| + 1 by { assert [raw.value][..0] == []; }
      ops := ops + [raw.value];
      bytes := bytes + |raw.value| + 1;
    }

    method Drain() returns (drained: seq<string>)
      requires Valid()
      modifies this`ops, this`bytes
      ensures Valid()
      ensures drained == old(ops) && ops == []
    {
      drained := ops;
      ops, bytes := [], 0;
    }
  }

  // ---------------------------------------------------------------- the response underneath

  /** The ResponseWriter that is wrapped. Any write to it may stop short. */
  class Response {
    var header: Header
    var status: nat
    var wire: string

    /** The headers as they were sent, and whether a write has stopped short. */
    var sent: Option<Header>
    var broken: bool

    constructor ()
      ensures header == map[] && status == 0 && wire == "" && sent == None && !broken
    {
      header, status, wire, sent, broken := map[], 0, "", None, false;
    }

    method WriteHeader(code: nat)
      modifies this`status, this`sent
      ensures status == (if code >= 200 && old(status) == 0 then code else old(status))
      ensures sent == (if code >= 200 && old(status) == 0 then Some(header) else old(sent))
    {
      if code >= 200 && status == 0 {
        status, sent := code, Some(header);
      }
    }

    method Flush()
      modifies this`status, this`sent
      ensures status == if old(status) == 0 then 200 else old(status)
      ensures sent == if old(status) == 0 then Some(header) else old(sent)
    {
      WriteHeader(200);
    }

    method Write(raw: string) returns (n: nat, ok: bool)
      modifies this`status, this`sent, this`wire, this`broken
      ensures n <= |raw| && wire == old(wire) + raw[..n]
      ensures ok <==> n == |raw|
      ensures broken <==> old(broken) || !ok
      ensures sent == if old(status) == 0 then Some(header) else old(sent)
      ensures status == if old(status) == 0 then 200 else old(status)
    {
      WriteHeader(200);
      n :| n <= |raw|;
      wire := wire + raw[..n];
      ok := n == |raw|;
      broken := broken || !ok;
    }
  }

  // ---------------------------------------------------------------- nativeTraceWriter

  const TRAILER := "Trailer"
  const LENGTH := "Content-Length"
  const CARRIED := "X-Skgo-Content-Length"
  const BEFORE := "X-Skgo-Tracing"
  const AFTER := "X-Skgo-Tracing-After"

  /** Every operation queued, sink by sink. */
  function Flat(queues: seq<seq<string>>): seq<string> {
    if queues == [] then [] else Flat(queues[..|queues| - 1]) + queues[|queues| - 1]
  }

  /** The annotation header for some operations: none where none fits. */
  function Annotated(ops: seq<string>): Option<HeaderValue> {
    var fit := Fitting(ops, 2);
    if fit == [] then None else Some(Base64(Array(fit)))
  }

  /** An annotation header is at most 4096 characters of base64. */
  lemma AnnotationsFit(ops: seq<string>)
    ensures Annotated(ops).Some? ==> WireLength(Annotated(ops).value) <= 4096
  {
    var fit := Fitting(ops, 2);
    FittingFits(ops, 2);
    if fit != [] {
      ArrayWeighs(fit);
    }
  }

  /** With one sink every operation queued is carried: the queue's own bound leaves room for all. */
  lemma OneSinkDropsNothing(sink: Sink)
    requires sink.Valid()
    ensures Annotated(Flat([sink.ops])) == if sink.ops == [] then None else Some(Base64(Array(sink.ops)))
  {
    assert [sink.ops][..0] == [] && [] + sink.ops == sink.ops;
    assert Flat([sink.ops]) == sink.ops;
    FittingFits(sink.ops, 2);
  }

  lemma {:induction false} FittingSplits(a: seq<string>, b: seq<string>, used: nat)
    ensures Fitting(a + b, used) == Fitting(a, used) + Fitting(b, used + Weight(Fitting(a, used)))
    decreases |a|
  {
    if a == [] {
      assert a + b == b;
    } else {
      var op, rest := a[0], a[1..];
      assert (a + b)[1..] == rest + b;
      assert Weight([op]) == |op| + 1 by { assert [op][..0] == []; }
      if used + |op| + 1 > BUDGET {
        FittingSplits(rest, b, used);
      } else {
        FittingSplits(rest, b, used + |op| + 1);
        WeightAppends([op], Fitting(rest, used + |op| + 1));
      }
    }
  }

  lemma FlatNext(queues: seq<seq<string>>, queue: seq<string>)
    ensures Flat(queues + [queue]) == Flat(queues) + queue
  {
    assert (queues + [queue])[..|queues|] == queues;
  }

  /** The headers with the trailer declared, and a length moved aside. */
  function Declaring(h: Header): Header {
    var declared := AddTo(h, TRAILER, Text(AFTER));
    var length := Get(declared, LENGTH);
    if length == Text("") then declared else Set(declared, CARRIED, length) - {LENGTH}
  }

  /** No trailer beside a length, and the length there was is carried in its place. */
  lemma NoTrailerBesideLength(h: Header)
    ensures Text(AFTER) in Declaring(h)[TRAILER]
    ensures Get(Declaring(h), LENGTH) == Text("")
    ensures Get(h, LENGTH) != Text("") ==> Get(Declaring(h), CARRIED) == Get(h, LENGTH)
  {
  }

  /** The headers a commit leaves. */
  function Committed(h: Header, streaming: bool, value: Option<HeaderValue>): Header {
    var declared := if streaming then Declaring(h) else h;
    if value.Some? then Set(declared, BEFORE, value.value) else declared
  }

  ghost predicate SinksValid(sinks: seq<Sink>)
    reads sinks
  {
    && (forall i :: 0 <= i < |sinks| ==> sinks[i].Valid())
    && (forall i, j :: 0 <= i < j < |sinks| ==> sinks[i] != sinks[j])
  }

  /** The loop over one sink's operations. */
  method TakeFitting(drained: seq<string>, bytes: nat) returns (ops: seq<string>, used: nat)
    ensures ops == Fitting(drained, bytes) && used == bytes + Weight(ops)
  {
    ops, used := [], bytes;
    for i := 0 to |drained|
      invariant ops == Fitting(drained[..i], bytes) && used == bytes + Weight(ops)
    {
      var op := drained[i];
      assert drained[..i + 1] == drained[..i] + [op];
      FittingSplits(drained[..i], [op], bytes);
      assert Fitting([op][1..], used) == [];
      if used + |op| + 1 > BUDGET {
        assert Fitting([op], used) == [];
        assert ops + [] == ops;
        continue;
      }
      assert Fitting([op], used) == [op];
      WeightAppends(ops, [op]);
      assert Weight([op]) == |op| + 1 by { assert [op][..0] == []; }
      ops := ops + [op];
      used := used + |op| + 1;
    }
    assert drained[..|drained|] == drained;
  }

  lemma DrainStep(before: seq<string>, drained: seq<string>, ops: seq<string>, bytes: nat)
    requires ops == Fitting(before, 2) && bytes == 2 + Weight(ops)
    ensures ops + Fitting(drained, bytes) == Fitting(before + drained, 2)
    ensures bytes + Weight(Fitting(drained, bytes)) == 2 + Weight(ops + Fitting(drained, bytes))
  {
    FittingSplits(before, drained, 2);
    WeightAppends(ops, Fitting(drained, bytes));
  }

  /** The loop over the sinks. */
  method DrainAll(sinks: seq<Sink>) returns (ops: seq<string>, ghost queues: seq<seq<string>>)
    requires SinksValid(sinks)
    modifies sinks
    ensures SinksValid(sinks) && forall i :: 0 <= i < |sinks| ==> sinks[i].ops == []
    ensures |queues| == |sinks| && forall i :: 0 <= i < |sinks| ==> queues[i] == old(sinks[i].ops)
    ensures ops == Fitting(Flat(queues), 2)
  {
    queues := [];
    ops := [];
    var bytes := 2;
    assert Flat([]) == [] && Fitting([], 2) == [] && Weight([]) == 0;
    hide Flat, Fitting, Weight;
    for k := 0 to |sinks|
      invariant SinksValid(sinks)
      invariant |queues| == k && forall i :: 0 <= i < k ==> queues[i] == old(sinks[i].ops)
      invariant forall i :: 0 <= i < k ==> sinks[i].ops == []
      invariant forall i :: k <= i < |sinks| ==> sinks[i].ops == old(sinks[i].ops)
      invariant ops == Fitting(Flat(queues), 2) && bytes == 2 + Weight(ops)
    {
      var drained := sinks[k].Drain();
      var more, used := TakeFitting(drained, bytes);
      DrainStep(Flat(queues), drained, ops, bytes);
      FlatNext(queues, drained);
      ops, bytes, queues := ops + more, used, queues + [drained];
    }
  }

  /** The trailer is declared, and no length stands beside it. */
  predicate Streamed(h: Header) {
    TRAILER in h && Text(AFTER) in h[TRAILER] && Get(h, LENGTH) == Text("")
  }

  lemma CommitStreams(h: Header, value: Option<HeaderValue>)
    ensures Streamed(Committed(h, true, value))
  {
    NoTrailerBesideLength(h);
  }

  class Writer {
    const response: Response
    var sinks: seq<Sink>
    var sent: bool
    var status: nat
    var held: string

    /** What Write has reported written. */
    ghost var accepted: string

    ghost predicate Valid()
      reads this, response, sinks
    {
      SinksValid(sinks) && State()
    }

    /** What is sent and what is held make up what was accepted, unless the response has broken. */
    ghost predicate State()
      reads this, response
    {
      && |held| <= HOLD
      && (sent ==> held == "")
      && (sinks == [] ==> !sent && held == "")
      && (held != "" ==> status != 0)
      && (status == 0 || status >= 200)
      && (!response.broken ==> response.wire + held == accepted)
    }

    constructor (response: Response)
      requires response.wire == "" && !response.broken
      ensures Valid() && sinks == [] && accepted == "" && this.response == response
    {
      this.response := response;
      sinks, sent, status, held, accepted := [], false, 0, "", "";
    }

    method Add(sink: Sink?)
      requires Valid() && (sink != null ==> sink.Valid())
      modifies this`sinks
      ensures Valid()
      ensures sinks == if sink == null || sink in old(sinks) then old(sinks) else old(sinks) + [sink]
    {
      if sink == null {
        return;
      }
      for i := 0 to |sinks|
        invariant sink !in sinks[..i]
      {
        if sinks[i] == sink {
          return;
        }
        assert sinks[..i + 1] == sinks[..i] + [sinks[i]];
      }
      assert sinks[..|sinks|] == sinks;
      sinks := sinks + [sink];
    }

    /** annotations: everything queued is drained; what fits is carried. */
    method Annotations() returns (value: Option<HeaderValue>, ghost queues: seq<seq<string>>)
      requires SinksValid(sinks)
      modifies sinks
      ensures SinksValid(sinks) && forall i :: 0 <= i < |sinks| ==> sinks[i].ops == []
      ensures |queues| == |sinks| && forall i :: 0 <= i < |sinks| ==> queues[i] == old(sinks[i].ops)
      ensures value == Annotated(Flat(queues))
      ensures value.Some? ==> WireLength(value.value) <= 4096
    {
      hide Flat, Fitting, Weight, Array;
      var ops;
      ops, queues := DrainAll(sinks);
      AnnotationsFit(Flat(queues));
      if |ops| == 0 {
        return None, queues;
      }
      return Some(Base64(Array(ops))), queues;
    }

    /** WriteHeader: held back until the response is committed, but for an informational status. */
    method WriteHeader(code: nat)
      requires Valid()
      modifies this`status, response`status, response`sent
      ensures Valid()
      ensures
        if |sinks| == 0 || sent || code < 200 then
          status == old(status)
          && response.status == if code >= 200 && old(response.status) == 0 then code else old(response.status)
        else
          status == (if old(status) == 0 then code else old(status))
          && response.status == old(response.status) && response.sent == old(response.sent)
    {
      if |sinks| == 0 || sent || code < 200 {
        response.WriteHeader(code);
      } else if status == 0 {
        status := code;
      }
    }

    /**
     commit: the held status, headers and body are sent. A streamed commit declares the trailer and
     moves a length aside; either way the annotations queued so far travel in a header.
     */
    method Commit(streaming: bool) returns (ok: bool, ghost queues: seq<seq<string>>)
      requires Valid() && |sinks| > 0
      modifies this`sent, this`status, this`held, response, sinks
      ensures Valid() && sent && held == "" && (!ok ==> response.broken)
      ensures old(sent) ==> ok && unchanged(this) && unchanged(response)
      ensures !old(sent) && ok ==>
        response.wire == old(response.wire) + old(held) && response.broken == old(response.broken)
      ensures !old(sent) ==>
        && |queues| == |sinks| &&
           (forall i :: 0 <= i < |sinks| ==> queues[i] == old(sinks[i].ops) && sinks[i].ops == [])
        && response.header == Committed(old(response.header), streaming, Annotated(Flat(queues)))
      ensures !old(sent) ==>
        && response.sent == (if old(response.status) == 0 then Some(response.header) else old(response.sent))
        && response.status ==
           if old(response.status) != 0 then old(response.status) else if old(status) != 0 then old(status) else 200
    {
      queues := [];
      if sent {
        return true, queues;
      }
      hide Annotated, Committed, Flat;
      ok, queues := SendAll(streaming);
    }

    /** The first commit. */
    method SendAll(streaming: bool) returns (ok: bool, ghost queues: seq<seq<string>>)
      requires Valid() && |sinks| > 0 && !sent
      modifies this`sent, this`status, this`held, response, sinks
      ensures Valid() && sent && held == "" && (!ok ==> response.broken)
      ensures ok ==> response.wire == old(response.wire) + old(held) && response.broken == old(response.broken)
      ensures |queues| == |sinks| && forall i :: 0 <= i < |sinks| ==>
        queues[i] == old(sinks[i].ops) && sinks[i].ops == []
      ensures response.header == Committed(old(response.header), streaming, Annotated(Flat(queues)))
      ensures response.sent == if old(response.status) == 0 then Some(response.header) else old(response.sent)
      ensures
        response.status ==
        if old(response.status) != 0 then old(response.status) else if old(status) != 0 then old(status) else 200
    {
      hide Annotated, Committed, Flat;
      sent := true;
      if status == 0 {
        status := 200;
      }
      queues := SendHead(streaming);
      ok := SendHeld();
    }

    /** The held body of a commit. */
    method SendHeld() returns (ok: bool)
      modifies this`held, response`wire, response`status, response`sent, response`broken
      ensures held == "" && (ok ==> response.wire == old(response.wire) + old(held))
      ensures response.broken <==> old(response.broken) || !ok
      ensures old(response.status) != 0 ==>
        response.status == old(response.status) && response.sent == old(response.sent)
    {
      var bytes := held;
      held := "";
      if |bytes| == 0 {
        assert response.wire + bytes == response.wire;
        return true;
      }
      var n;
      n, ok := response.Write(bytes);
      assert ok ==> bytes[..n] == bytes;
    }

    /** The status line and headers of a commit, with the trailer and the annotations worked out. */
    method SendHead(streaming: bool) returns (ghost queues: seq<seq<string>>)
      requires SinksValid(sinks) && status >= 200
      modifies response`header, response`status, response`sent, sinks
      ensures SinksValid(sinks)
      ensures |queues| == |sinks| && forall i :: 0 <= i < |sinks| ==>
        queues[i] == old(sinks[i].ops) && sinks[i].ops == []
      ensures response.header == Committed(old(response.header), streaming, Annotated(Flat(queues)))
      ensures response.sent == if old(response.status) == 0 then Some(response.header) else old(response.sent)
      ensures response.status == if old(response.status) == 0 then status else old(response.status)
    {
      hide Annotated, Declaring, Flat;
      if streaming {
        response.header := Declaring(response.header);
      }
      var value;
      value, queues := Annotations();
      if value.Some? {
        response.header := Set(response.header, BEFORE, value.value);
      }
      response.WriteHeader(status);
    }

    /** Write: a small body is held; the byte that would overflow the hold commits what came before it. */
    method Write(raw: string) returns (n: nat, ok: bool)
      requires Valid()
      modifies this`sent, this`status, this`held, this`accepted, response, sinks
      ensures Valid() && n <= |raw| && accepted == old(accepted) + raw[..n]
      ensures !ok ==> response.broken
      ensures |sinks| > 0 && !old(sent) && |old(held)| + |raw| <= HOLD ==>
        ok && n == |raw| && held == old(held) + raw && unchanged(response)
      ensures |sinks| > 0 && !old(sent) && |old(held)| + |raw| > HOLD ==> sent && Streamed(response.header)
      ensures |sinks| > 0 && !old(sent) && |old(held)| + |raw| > HOLD && old(response.status) == 0 ==>
        response.sent.Some? && Streamed(response.sent.value)
    {
      hide Annotated, Flat;
      if |sinks| == 0 || sent {
        n, ok := WriteThrough(raw);
        return;
      }
      if status == 0 {
        status := 200;
      }
      if |held| + |raw| <= HOLD {
        assert response.wire + held + raw == response.wire + (held + raw);
        held := held + raw;
        accepted := accepted + raw;
        return |raw|, true;
      }
      ghost var header := response.header;
      var committed, queues := Commit(true);
      CommitStreams(header, Annotated(Flat(queues)));
      if !committed {
        assert accepted + raw[..0] == accepted;
        return 0, false;
      }
      n, ok := WriteThrough(raw);
    }

    method WriteThrough(raw: string) returns (n: nat, ok: bool)
      requires State() && held == ""
      modifies this`accepted, response`wire, response`status, response`sent, response`broken
      ensures State()
      ensures n <= |raw| && accepted == old(accepted) + raw[..n]
      ensures !ok ==> response.broken
      ensures old(response.status) != 0 ==> response.sent == old(response.sent)
    {
      n, ok := response.Write(raw);
      assert old(response.wire) + held == old(response.wire);
      assert response.wire + held == response.wire;
      accepted := accepted + raw[..n];
    }

    method Flush()
      requires Valid()
      modifies this`sent, this`status, this`held, response, sinks
      ensures Valid() && held == ""
      ensures |sinks| > 0 ==> sent
      ensures |sinks| > 0 && !old(sent) ==> Streamed(response.header)
      ensures |sinks| > 0 && !old(sent) && old(response.status) == 0 ==>
        response.sent.Some? && Streamed(response.sent.value)
    {
      hide Annotated, Flat;
      if |sinks| > 0 {
        ghost var header := response.header;
        var _, queues := Commit(true);
        CommitStreams(header, Annotated(Flat(queues)));
      }
      response.Flush();
    }

    /**
     finish: nothing stays held. Unless the response broke, the wire has exactly what was accepted;
     what was annotated since a commit travels in the trailer, and with no commit yet everything
     travels in the header and no trailer is declared.
     */
    method Finish() returns (ghost queues: seq<seq<string>>)
      requires Valid()
      modifies this`sent, this`status, this`held, response, sinks
      ensures Valid() && held == "" && (!response.broken ==> response.wire == accepted)
      ensures |queues| == |sinks| && forall i :: 0 <= i < |sinks| ==>
        queues[i] == old(sinks[i].ops) && sinks[i].ops == []
      ensures
        var value := Annotated(Flat(queues));
        response.header ==
        if !old(sent) then Committed(old(response.header), false, value)
        else if value.Some? then Set(old(response.header), AFTER, value.value)
        else old(response.header)
    {
      hide Annotated, Flat;
      if |sinks| > 0 && !sent && status != 0 {
        var ok;
        ok, queues := Commit(false);
        assert response.wire + held == response.wire;
        return;
      }
      var value;
      value, queues := Annotations();
      if value.Some? {
        if !sent {
          response.header := Set(response.header, BEFORE, value.value);
        } else {
          response.header := Set(response.header, AFTER, value.value);
        }
      }
      assert response.wire + held == response.wire;
    }
  }
}
