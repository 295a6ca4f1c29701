/**
 Single-flight refreshes (refresh.go) and the gate client requests have to pass
 (requested.go): a re-entrant work set in which the last registration of a key wins, drained
 until it stops growing.
 */
module Refresh {
  import opened Wrappers

  datatype Outcome<+T> = Ok(value: T) | Err(message: string)

  datatype Kind = Query | Live | Batch | Command | Form

  /** A registered remote function. */
  datatype Remote = Remote(id: string, kind: Kind)

  /** A decoded argument. */
  datatype Call = Call(arg: string)

  /** refreshEntry: with an error, that is the key's whole answer and nothing runs. */
  datatype Entry = Entry(fn: Remote, call: Call, error: Option<string>)

  /** What the response reports for a key: a value, or an error on that key alone. */
  datatype Answer = V(value: string) | E(message: string)

  /** RequestedQuery: one instance the gate let through, for the handler to accept or ignore. */
  datatype Instance = Instance(key: string, fn: Remote, call: Call)

  /** Who registered: the application itself, or the gate accepting or refusing a client's key. */
  datatype Origin = Own | Accepted | Refused

  datatype Event =
    | Registered(key: string, entry: Entry, origin: Origin)
    | Answered(key: string, entry: Entry, answer: Answer)

  /** What application code may do to the set: from the handler, or from a query being refreshed. */
  datatype Op =
    | Refresh(fn: Remote, payload: string, call: Call)
    | Requested(fn: Remote, limit: int, want: Kind)
    | Accept(instance: nat)
    | Ignore(instance: nat)
    | RefreshAll(fn: Remote, limit: int, want: Kind)
    | IgnoreAll(fn: Remote, limit: int)

  /** One run of a query: what it does to the set on the way, and what it answers. */
  datatype Turn = Turn(ops: seq<Op>, answer: Answer)

  // ---------------------------------------------------------------- keys

  /** The key of one instance: the query's id, a slash, the payload. */
  function KeyOf(id: string, payload: string): string {
    id + "/" + payload
  }

  /** strings.LastIndex(key, "/"). */
  function LastSlash(key: string): (i: int)
    ensures -1 <= i < |key|
    ensures i >= 0 ==> key[i] == '/' && forall k :: i < k < |key| ==> key[k] != '/'
    ensures i < 0 ==> forall k :: 0 <= k < |key| ==> key[k] != '/'
  {
    if key == "" then -1
    else if key[|key| - 1] == '/' then |key| - 1
    else LastSlash(key[..|key| - 1])
  }

  /** The two halves of a key, around its last slash. */
  function IdOf(key: string): string
    requires LastSlash(key) >= 0
  {
    key[..LastSlash(key)]
  }

  function PayloadOf(key: string): string
    requires LastSlash(key) >= 0
  {
    key[LastSlash(key) + 1..]
  }

  /** The payloads the client asked for under an id, in the order it sent them. */
  function PayloadsOf(keys: seq<string>, id: string): seq<string> {
    if keys == [] then []
    else
      var n := |keys| - 1;
      PayloadsOf(keys[..n], id) + if LastSlash(keys[n]) >= 0 && IdOf(keys[n]) == id then [PayloadOf(keys[n])] else []
  }

  lemma Halves(key: string)
    requires LastSlash(key) >= 0
    ensures KeyOf(IdOf(key), PayloadOf(key)) == key && '/' !in PayloadOf(key)
  {
    var i := LastSlash(key);
    assert key == key[..i] + [key[i]] + key[i + 1..];
  }

  /** Every key the client sent that has a slash is rebuilt byte for byte from its group. */
  lemma {:induction false} ClientKeyIsRebuilt(keys: seq<string>, k: nat)
    requires k < |keys| && '/' in keys[k]
    ensures LastSlash(keys[k]) >= 0
    ensures PayloadOf(keys[k]) in PayloadsOf(keys, IdOf(keys[k]))
    ensures KeyOf(IdOf(keys[k]), PayloadOf(keys[k])) == keys[k]
  {
    assert LastSlash(keys[k]) >= 0;
    Halves(keys[k]);
    hide LastSlash, IdOf, PayloadOf, KeyOf;
    var n := |keys| - 1;
    if k < n {
      assert keys[..n][k] == keys[k];
      ClientKeyIsRebuilt(keys[..n], k);
    }
  }

  /** And nothing else is in a group: each of its payloads names a key the client sent. */
  lemma {:induction false} PayloadWasSent(keys: seq<string>, id: string, payload: string)
    requires payload in PayloadsOf(keys, id)
    ensures KeyOf(id, payload) in keys && '/' !in payload
  {
    hide LastSlash, IdOf, PayloadOf, KeyOf;
    var n := |keys| - 1;
    if payload in PayloadsOf(keys[..n], id) {
      PayloadWasSent(keys[..n], id, payload);
    } else {
      Halves(keys[n]);
    }
  }

  lemma SameKey(id: string, p: string, q: string)
    ensures KeyOf(id, p) == KeyOf(id, q) <==> p == q
  {
    assert KeyOf(id, p)[|id| + 1..] == p && KeyOf(id, q)[|id| + 1..] == q;
  }

  // ---------------------------------------------------------------- histories

  function RegisteredKeys(log: seq<Event>): set<string> {
    set e | e in log && e.Registered? :: e.key
  }

  function AnsweredKeys(log: seq<Event>): set<string> {
    set e | e in log && e.Answered? :: e.key
  }

  /** The last registration of a key. */
  function LastOf(log: seq<Event>, key: string): (r: Option<Event>)
    ensures r.Some? ==> r.value in log && r.value.Registered? && r.value.key == key
    ensures r.Some? <==> key in RegisteredKeys(log)
  {
    if log == [] then None
    else
      var n := |log| - 1;
      assert forall e :: e in log <==> e in log[..n] || e == log[n];
      if log[n].Registered? && log[n].key == key then Some(log[n]) else LastOf(log[..n], key)
  }

  /**
   The turn taken at p is right: it is its key's first, it uses the last registration made before
   it, and a refusal is its own answer.
   */
  ghost predicate TurnAt(log: seq<Event>, p: nat)
    requires p < |log| && log[p].Answered?
  {
    && LastOf(log[..p], log[p].key).Some?
    && log[p].entry == LastOf(log[..p], log[p].key).value.entry
    && log[p].key !in AnsweredKeys(log[..p])
    && (log[p].entry.error.Some? ==> log[p].answer == E(log[p].entry.error.value))
  }

  ghost predicate WellTurned(log: seq<Event>) {
    forall p :: 0 <= p < |log| && log[p].Answered? ==> TurnAt(log, p)
  }

  /** The turn at p ran its query, and on the client's word: the entry was one the gate accepted. */
  predicate RanForClient(log: seq<Event>, p: nat)
    requires p < |log|
  {
    && log[p].Answered?
    && log[p].entry.error.None?
    && LastOf(log[..p], log[p].key).Some?
    && LastOf(log[..p], log[p].key).value.origin == Accepted
  }

  /** The keys the client named that were run for it. */
  function ClientRuns(log: seq<Event>): set<string> {
    set p | 0 <= p < |log| && RanForClient(log, p) :: log[p].key
  }

  lemma LogAppend(log: seq<Event>, e: Event)
    ensures RegisteredKeys(log + [e]) == RegisteredKeys(log) + if e.Registered? then {e.key} else {}
    ensures AnsweredKeys(log + [e]) == AnsweredKeys(log) + if e.Answered? then {e.key} else {}
    ensures forall key :: LastOf(log + [e], key) == if e.Registered? && e.key == key then Some(e) else LastOf(log, key)
  {
    var all := log + [e];
    assert all[..|log|] == log && all[|log|] == e;
    assert forall x :: x in all <==> x in log || x == e;
  }

  lemma TurnAppend(log: seq<Event>, e: Event)
    requires WellTurned(log)
    requires e.Answered? ==>
      && LastOf(log, e.key).Some?
      && e.entry == LastOf(log, e.key).value.entry
      && e.key !in AnsweredKeys(log)
      && (e.entry.error.Some? ==> e.answer == E(e.entry.error.value))
    ensures WellTurned(log + [e])
  {
    var all := log + [e];
    forall p | 0 <= p < |all| && all[p].Answered?
      ensures TurnAt(all, p)
    {
      if p < |log| {
        assert all[..p] == log[..p];
        assert TurnAt(log, p);
      } else {
        assert all[..p] == log;
      }
    }
  }

  // ---------------------------------------------------------------- the gate, as functions

  /** What comes of a payload: parsePayload and decodeRequested, one after the other. */
  datatype Decoded = Decoded(call: Call) | Undecodable(message: string)

  /** The instances among some payloads: the ones that decode, in order. */
  function Decodables(fn: Remote, payloads: seq<string>, decode: (string, string) -> Decoded): (r: seq<Instance>)
    ensures |r| <= |payloads|
  {
    if payloads == [] then []
    else
      var n := |payloads| - 1;
      var before := Decodables(fn, payloads[..n], decode);
      match decode(fn.id, payloads[n])
      case Undecodable(_) => before
      case Decoded(call) => before + [Instance(KeyOf(fn.id, payloads[n]), fn, call)]
  }

  function Within(payloads: seq<string>, limit: nat): (r: seq<string>)
    ensures |r| <= limit && r <= payloads
  {
    payloads[..if limit < |payloads| then limit else |payloads|]
  }

  /** The instances requestedInstances returns: within the limit, and decodable. */
  function Instances(fn: Remote, payloads: seq<string>, limit: nat,
                     decode: (string, string) -> Decoded): (r: seq<Instance>)
    ensures |r| <= limit
  {
    Decodables(fn, Within(payloads, limit), decode)
  }

  /** The client's key for a payload is let through: some copy of it before the limit decodes. */
  predicate Admitted(id: string, payloads: seq<string>, limit: nat, decode: (string, string) -> Decoded,
                     payload: string) {
    payload in Within(payloads, limit) && decode(id, payload).Decoded?
  }

  lemma {:induction false} DecodablesAre(fn: Remote, payloads: seq<string>, decode: (string, string) -> Decoded)
    ensures forall p :: p in payloads && decode(fn.id, p).Decoded? ==>
      Instance(KeyOf(fn.id, p), fn, decode(fn.id, p).call) in Decodables(fn, payloads, decode)
    ensures forall x :: x in Decodables(fn, payloads, decode) ==>
      exists p {:trigger KeyOf(fn.id, p)} ::
        p in payloads && decode(fn.id, p).Decoded? && x == Instance(KeyOf(fn.id, p), fn, decode(fn.id, p).call)
  {
    if payloads != [] {
      var n := |payloads| - 1;
      DecodablesAre(fn, payloads[..n], decode);
      assert forall p :: p in payloads <==> p in payloads[..n] || p == payloads[n];
      assert KeyOf(fn.id, payloads[n]) == KeyOf(fn.id, payloads[n]);
    }
  }

  lemma InstancesAppend(fn: Remote, payloads: seq<string>, n: nat, limit: nat, decode: (string, string) -> Decoded)
    requires n < |payloads|
    ensures
      Instances(fn, payloads[..n + 1], limit, decode) ==
      Instances(fn, payloads[..n], limit, decode)
      + if n < limit && decode(fn.id, payloads[n]).Decoded?
        then [Instance(KeyOf(fn.id, payloads[n]), fn, decode(fn.id, payloads[n]).call)] else []
  {
    if n < limit {
      assert Within(payloads[..n + 1], limit) == payloads[..n + 1];
      assert Within(payloads[..n], limit) == payloads[..n] == payloads[..n + 1][..n];
    } else {
      assert Within(payloads[..n + 1], limit) == payloads[..limit] == Within(payloads[..n], limit);
    }
  }

  /** The i-th payload is turned away: it is beyond the limit, or it does not decode. */
  predicate Turned(fn: Remote, payloads: seq<string>, limit: nat, decode: (string, string) -> Decoded, i: nat)
    requires i < |payloads|
  {
    i >= limit || decode(fn.id, payloads[i]).Undecodable?
  }

  /** A payload's key has an entry whose whole answer is an error. */
  predicate RefusedIn(entries: map<string, Entry>, fn: Remote, payload: string) {
    var key := KeyOf(fn.id, payload);
    key in entries && entries[key].fn == fn && entries[key].error.Some?
  }

  /** Each of the first n payloads that is turned away is refused onto its own key. */
  ghost predicate RefusalsMade(entries: map<string, Entry>, fn: Remote, payloads: seq<string>, limit: nat,
                               decode: (string, string) -> Decoded, n: nat)
    requires n <= |payloads|
  {
    forall i :: 0 <= i < n && Turned(fn, payloads, limit, decode, i) ==> RefusedIn(entries, fn, payloads[i])
  }

  /** Nothing but refusals of these payloads has changed. */
  ghost predicate OnlyRefused(was: map<string, Entry>, entries: map<string, Entry>, fn: Remote, payloads: seq<string>) {
    && was.Keys <= entries.Keys
    && forall key :: key in entries && !(key in was && entries[key] == was[key]) ==>
      OneRefused(entries, fn, payloads, key)
  }

  ghost predicate OneRefused(entries: map<string, Entry>, fn: Remote, payloads: seq<string>, key: string) {
    && key in entries
    && exists p {:trigger KeyOf(fn.id, p)} :: p in payloads && key == KeyOf(fn.id, p) && RefusedIn(entries, fn, p)
  }

  lemma StartsEmpty(entries: map<string, Entry>, fn: Remote, payloads: seq<string>, limit: nat,
                    decode: (string, string) -> Decoded)
    ensures RefusalsMade(entries, fn, payloads, limit, decode, 0)
    ensures OnlyRefused(entries, entries, fn, payloads)
    ensures Instances(fn, payloads[..0], limit, decode) == []
  {
  }

  lemma NoRefusal(entries: map<string, Entry>, fn: Remote, payloads: seq<string>, limit: nat,
                  decode: (string, string) -> Decoded, n: nat)
    requires n < |payloads| && !Turned(fn, payloads, limit, decode, n)
    requires RefusalsMade(entries, fn, payloads, limit, decode, n)
    ensures RefusalsMade(entries, fn, payloads, limit, decode, n + 1)
  {
  }

  lemma RefusalAdds(was: map<string, Entry>, entries: map<string, Entry>, fn: Remote, payloads: seq<string>, limit: nat,
                    decode: (string, string) -> Decoded, n: nat, e: Entry)
    requires n < |payloads|
    requires RefusalsMade(entries, fn, payloads, limit, decode, n)
    requires OnlyRefused(was, entries, fn, payloads)
    requires e.fn == fn && e.error.Some?
    ensures RefusalsMade(entries[KeyOf(fn.id, payloads[n]) := e], fn, payloads, limit, decode, n + 1)
    ensures OnlyRefused(was, entries[KeyOf(fn.id, payloads[n]) := e], fn, payloads)
  {
    var key := KeyOf(fn.id, payloads[n]);
    var after := entries[key := e];
    forall k | k in after && !(k in was && after[k] == was[k])
      ensures OneRefused(after, fn, payloads, k)
    {
      assert RefusedIn(after, fn, payloads[n]);
      if k != key {
        assert OneRefused(entries, fn, payloads, k);
        var p :| p in payloads && k == KeyOf(fn.id, p) && RefusedIn(entries, fn, p);
        assert RefusedIn(after, fn, p);
      }
    }
  }

  /** What the gate has recorded since: acceptances and refusals, each under its own name. */
  ghost predicate GateEvents(before: seq<Event>, after: seq<Event>) {
    && Extends(before, after)
    && forall e :: e in after[|before|..] ==> e.origin == if e.entry.error.None? then Accepted else Refused
  }

  ghost predicate Extends(before: seq<Event>, after: seq<Event>) {
    before <= after && forall e :: e in after[|before|..] ==> e.Registered?
  }

  lemma NoGateEvents(log: seq<Event>)
    ensures GateEvents(log, log)
  {
  }

  lemma GateEventsJoin(a: seq<Event>, b: seq<Event>, c: seq<Event>)
    requires GateEvents(a, b) && GateEvents(b, c)
    ensures GateEvents(a, c)
  {
    assert c[|a|..] == b[|a|..] + c[|b|..];
  }

  function KeysOf(held: seq<Instance>): set<string> {
    set x | x in held :: x.key
  }

  function AcceptedKeys(log: seq<Event>): set<string> {
    set e | e in log && e.Registered? && e.origin == Accepted :: e.key
  }

  lemma KeysOfAppend(held: seq<Instance>, more: seq<Instance>)
    ensures KeysOf(held + more) == KeysOf(held) + KeysOf(more)
  {
    assert forall x :: x in held + more <==> x in held || x in more;
  }

  /** The keys some payloads of a query stand for. */
  function TouchedKeys(id: string, payloads: seq<string>): set<string> {
    set p | p in payloads :: KeyOf(id, p)
  }

  lemma InstancesAre(fn: Remote, payloads: seq<string>, limit: nat, decode: (string, string) -> Decoded)
    ensures forall p :: Admitted(fn.id, payloads, limit, decode, p) ==>
      Instance(KeyOf(fn.id, p), fn, decode(fn.id, p).call) in Instances(fn, payloads, limit, decode)
    ensures forall x :: x in Instances(fn, payloads, limit, decode) ==>
      exists p {:trigger KeyOf(fn.id, p)} ::
        Admitted(fn.id, payloads, limit, decode, p) && x == Instance(KeyOf(fn.id, p), fn, decode(fn.id, p).call)
    ensures KeysOf(Instances(fn, payloads, limit, decode)) <= TouchedKeys(fn.id, payloads)
  {
    DecodablesAre(fn, Within(payloads, limit), decode);
    assert forall p :: p in Within(payloads, limit) ==> p in payloads;
  }

  /** Instances with the same key are the same instance. */
  lemma InstanceOfKey(fn: Remote, payloads: seq<string>, limit: nat, decode: (string, string) -> Decoded, x: Instance,
                      y: Instance)
    requires x in Instances(fn, payloads, limit, decode) && y in Instances(fn, payloads, limit, decode)
    requires x.key == y.key
    ensures x == y
  {
    InstancesAre(fn, payloads, limit, decode);
    var p :| Admitted(fn.id, payloads, limit, decode, p) && x == Instance(KeyOf(fn.id, p), fn, decode(fn.id, p).call);
    var q :| Admitted(fn.id, payloads, limit, decode, q) && y == Instance(KeyOf(fn.id, q), fn, decode(fn.id, q).call);
    SameKey(fn.id, p, q);
  }

  function EntryOf(x: Instance): Entry {
    Entry(x.fn, x.call, None)
  }

  /** The first n instances have been accepted, and no other entry has changed. */
  ghost predicate AcceptedFirst(was: map<string, Entry>, entries: map<string, Entry>, out: seq<Instance>, n: nat)
    requires n <= |out|
  {
    && entries.Keys == was.Keys + KeysOf(out[..n])
    && (forall i :: 0 <= i < n ==> out[i].key in entries && entries[out[i].key] == EntryOf(out[i]))
    && (forall key :: key in was && key !in KeysOf(out[..n]) ==> entries[key] == was[key])
  }

  lemma NoneAccepted(was: map<string, Entry>, out: seq<Instance>)
    ensures AcceptedFirst(was, was, out, 0)
  {
  }

  lemma AcceptNext(was: map<string, Entry>, entries: map<string, Entry>, out: seq<Instance>, n: nat)
    requires n < |out|
    requires forall i, j :: 0 <= i < |out| && 0 <= j < |out| && out[i].key == out[j].key ==> out[i] == out[j]
    requires AcceptedFirst(was, entries, out, n)
    ensures AcceptedFirst(was, entries[out[n].key := EntryOf(out[n])], out, n + 1)
  {
    KeysOfNext(out, n);
    hide KeysOf;
    var after := entries[out[n].key := EntryOf(out[n])];
    forall i | 0 <= i < n + 1 ensures out[i].key in after && after[out[i].key] == EntryOf(out[i]) {
      assert out[i].key == out[n].key ==> out[i] == out[n];
    }
  }

  /** A payload of the client's ends up with an entry, accepted exactly when it was admitted. */
  ghost predicate SettledAt(entries: map<string, Entry>, fn: Remote, payloads: seq<string>, limit: nat,
                            decode: (string, string) -> Decoded, p: string)
  {
    var key := KeyOf(fn.id, p);
    && key in entries
    && entries[key].fn == fn
    && (entries[key].error.None? <==> Admitted(fn.id, payloads, limit, decode, p))
    && (entries[key].error.None? ==> entries[key].call == decode(fn.id, p).call)
  }

  /** Only these payloads' keys have changed. */
  ghost predicate OthersKept(was: map<string, Entry>, entries: map<string, Entry>, keys: set<string>) {
    && was.Keys <= entries.Keys <= was.Keys + keys
    && forall key :: key in was && key !in keys ==> entries[key] == was[key]
  }

  lemma GateSettles(was: map<string, Entry>, mid: map<string, Entry>, entries: map<string, Entry>, fn: Remote,
                    payloads: seq<string>, limit: nat, decode: (string, string) -> Decoded, p: string)
    requires p in payloads
    requires RefusalsMade(mid, fn, payloads, limit, decode, |payloads|)
    requires var out := Instances(fn, payloads, limit, decode); AcceptedFirst(mid, entries, out, |out|)
    ensures SettledAt(entries, fn, payloads, limit, decode, p)
  {
    var out := Instances(fn, payloads, limit, decode);
    var key := KeyOf(fn.id, p);
    InstancesAre(fn, payloads, limit, decode);
    assert out[..|out|] == out;
    if Admitted(fn.id, payloads, limit, decode, p) {
      var x := Instance(key, fn, decode(fn.id, p).call);
      var i :| 0 <= i < |out| && out[i] == x;
    } else {
      assert key !in KeysOf(out) by {
        if key in KeysOf(out) {
          var x :| x in out && x.key == key;
          var q :| Admitted(fn.id, payloads, limit, decode, q) &&
            x == Instance(KeyOf(fn.id, q), fn, decode(fn.id, q).call);
          SameKey(fn.id, p, q);
          assert false;
        }
      }
      var i :| 0 <= i < |payloads| && payloads[i] == p;
      assert Turned(fn, payloads, limit, decode, i) by {
        if i < limit {
          assert Within(payloads, limit)[i] == p;
        }
      }
      assert RefusedIn(mid, fn, payloads[i]);
    }
  }

  lemma RefusedInside(was: map<string, Entry>, entries: map<string, Entry>, fn: Remote, payloads: seq<string>)
    requires OnlyRefused(was, entries, fn, payloads)
    ensures entries.Keys <= was.Keys + TouchedKeys(fn.id, payloads)
  {
    forall key | key in entries && key !in was ensures key in TouchedKeys(fn.id, payloads) {
      assert OneRefused(entries, fn, payloads, key);
    }
  }

  lemma GateKeepsOthers(was: map<string, Entry>, mid: map<string, Entry>, entries: map<string, Entry>, fn: Remote,
                        payloads: seq<string>, limit: nat, decode: (string, string) -> Decoded)
    requires OnlyRefused(was, mid, fn, payloads)
    requires var out := Instances(fn, payloads, limit, decode); AcceptedFirst(mid, entries, out, |out|)
    ensures OthersKept(was, entries, TouchedKeys(fn.id, payloads))
  {
    var out := Instances(fn, payloads, limit, decode);
    InstancesAre(fn, payloads, limit, decode);
    assert out[..|out|] == out;
    var keys := TouchedKeys(fn.id, payloads);
    forall key | key in mid && !(key in was && mid[key] == was[key]) ensures key in keys {
      assert OneRefused(mid, fn, payloads, key);
    }
  }

  lemma KeyIsHeld(held: seq<Instance>, i: nat)
    requires i < |held|
    ensures held[i].key in KeysOf(held)
  {
  }

  lemma KeysOfNext(out: seq<Instance>, n: nat)
    requires n < |out|
    ensures KeysOf(out[..n + 1]) == KeysOf(out[..n]) + {out[n].key}
  {
    assert out[..n + 1] == out[..n] + [out[n]];
    KeysOfAppend(out[..n], [out[n]]);
    assert KeysOf([out[n]]) == {out[n].key} by {
      assert out[n] in [out[n]];
    }
  }

  function SetOf(s: seq<string>): set<string> {
    set x | x in s
  }

  ghost predicate Distinct(s: seq<string>) {
    forall i, j :: 0 <= i < j < |s| ==> s[i] != s[j]
  }

  // ---------------------------------------------------------------- the answer

  /** What a run of the application answers at each turn, given all that has happened before it. */
  type Behaviour = (seq<Event>, string, Entry) -> Turn

  /** Every query that ran answered what the application made of it at its turn. */
  ghost predicate AnswersComeFrom(behave: Behaviour, log: seq<Event>) {
    forall p :: 0 <= p < |log| && log[p].Answered? && log[p].entry.error.None? ==>
      log[p].answer == behave(log[..p], log[p].key, log[p].entry).answer
  }

  /** The two maps hold the answers given, each under its own key and in the map of its kind. */
  ghost predicate Reported(log: seq<Event>, q: map<string, Answer>, l: map<string, Answer>) {
    && q.Keys !! l.Keys
    && q.Keys + l.Keys == AnsweredKeys(log)
    && forall e :: e in log && e.Answered? ==>
         var into := if e.entry.fn.kind == Live then l else q;
         e.key in into && into[e.key] == e.answer
  }

  lemma ReportedExtends(log: seq<Event>, after: seq<Event>, q: map<string, Answer>, l: map<string, Answer>)
    requires Extends(log, after) && Reported(log, q, l)
    ensures Reported(after, q, l)
  {
    assert after == log + after[|log|..];
    assert forall e :: e in after && e.Answered? <==> e in log && e.Answered?;
  }

  lemma ReportedAnswers(log: seq<Event>, e: Event, q: map<string, Answer>, l: map<string, Answer>)
    requires Reported(log, q, l)
    requires e.Answered? && e.key !in AnsweredKeys(log)
    ensures Reported(log + [e], if e.entry.fn.kind == Live then q else q[e.key := e.answer],
                     if e.entry.fn.kind == Live then l[e.key := e.answer] else l)
  {
    LogAppend(log, e);
    assert forall x :: x in log + [e] <==> x in log || x == e;
  }

  lemma AnswersExtend(behave: Behaviour, log: seq<Event>, after: seq<Event>)
    requires Extends(log, after) && AnswersComeFrom(behave, log)
    ensures AnswersComeFrom(behave, after)
  {
    forall k | |log| <= k < |after| ensures after[k].Registered? {
      assert after[k] == after[|log|..][k - |log|];
    }
    forall p | 0 <= p < |after| && after[p].Answered? && after[p].entry.error.None?
      ensures after[p].answer == behave(after[..p], after[p].key, after[p].entry).answer
    {
      assert after[..p] == log[..p];
    }
  }

  lemma AnswersAppend(behave: Behaviour, log: seq<Event>, e: Event)
    requires AnswersComeFrom(behave, log)
    requires e.Answered? && e.entry.error.None? ==> e.answer == behave(log, e.key, e.entry).answer
    ensures AnswersComeFrom(behave, log + [e])
  {
    var after := log + [e];
    forall p | 0 <= p < |after| && after[p].Answered? && after[p].entry.error.None?
      ensures after[p].answer == behave(after[..p], after[p].key, after[p].entry).answer
    {
      assert after[..p] == log[..p];
    }
  }

  /** No key has two turns, so no query runs twice. */
  lemma OneTurnEach(log: seq<Event>, p: nat, r: nat)
    requires WellTurned(log) && p < r < |log|
    requires log[p].Answered? && log[r].Answered?
    ensures log[p].key != log[r].key
  {
    assert TurnAt(log, r);
    assert log[..r][p] == log[p];
  }

  lemma {:induction false} FewKeys(held: seq<Instance>)
    ensures |KeysOf(held)| <= |held|
  {
    if held != [] {
      var n := |held| - 1;
      FewKeys(held[..n]);
      KeysOfNext(held, n);
      assert held[..n + 1] == held;
    }
  }

  lemma ReportedKeys(log: seq<Event>, q: map<string, Answer>, l: map<string, Answer>)
    requires Reported(log, q, l)
    ensures AnsweredKeys(log) == q.Keys + l.Keys
  {
  }

  lemma SubsetIsFewer(a: set<string>, b: set<string>)
    requires a <= b
    ensures |a| <= |b|
  {
    assert b == a + (b - a);
  }

  lemma HeadLeaves(keys: seq<string>)
    requires keys != [] && Distinct(keys)
    ensures keys[0] in SetOf(keys)
    ensures SetOf(keys[1..]) == SetOf(keys) - {keys[0]} && Distinct(keys[1..])
  {
    assert keys == [keys[0]] + keys[1..];
    assert keys[0] !in keys[1..];
  }

  lemma Shrinks(space: set<string>, before: set<string>, after: set<string>, key: string)
    requires before <= after && key in space && key !in before && key in after
    ensures |space - after| < |space - before|
  {
    SubsetIsFewer(space - after, space - before - {key});
  }

  lemma Nothing(behave: Behaviour, log: seq<Event>)
    requires AnsweredKeys(log) == {}
    ensures Reported(log, map[], map[]) && AnswersComeFrom(behave, log)
  {
    assert forall e :: e in log && e.Answered? ==> e.key in AnsweredKeys(log);
    assert forall p :: 0 <= p < |log| ==> log[p] in log;
  }

  /** What application code does keeps to a finite set of keys. */
  ghost predicate OpInside(op: Op, requested: map<string, seq<string>>, space: set<string>) {
    match op
    case Refresh(fn, payload, _) => KeyOf(fn.id, payload) in space
    case Accept(_) => true
    case Ignore(_) => true
    case _ => TouchedKeys(op.fn.id, At(requested, op.fn.id)) <= space
  }

  ghost predicate OpsInside(ops: seq<Op>, requested: map<string, seq<string>>, space: set<string>) {
    forall i :: 0 <= i < |ops| ==> OpInside(ops[i], requested, space)
  }

  ghost predicate StaysInside(behave: Behaviour, requested: map<string, seq<string>>, space: set<string>) {
    forall log, key, entry :: OpsInside(behave(log, key, entry).ops, requested, space)
  }

  // ---------------------------------------------------------------- what application code does

  /** The refusal of a payload that is turned away, onto its own key. */
  function RefusalAt(fn: Remote, payloads: seq<string>, i: nat, limit: nat,
                     decode: (string, string) -> Decoded): seq<Event>
    requires i < |payloads|
  {
    if !Turned(fn, payloads, limit, decode, i) then []
    else
      var message := if i >= limit then "refused: over the limit" else decode(fn.id, payloads[i]).message;
      [Registered(KeyOf(fn.id, payloads[i]), Entry(fn, Call(""), Some(message)), Refused)]
  }

  function Refusals(fn: Remote, payloads: seq<string>, n: nat, limit: nat,
                    decode: (string, string) -> Decoded): seq<Event>
    requires n <= |payloads|
  {
    if n == 0 then [] else Refusals(fn, payloads, n - 1, limit, decode) + RefusalAt(fn, payloads, n - 1, limit, decode)
  }

  lemma NoRefusals(fn: Remote, payloads: seq<string>, limit: nat, decode: (string, string) -> Decoded)
    ensures Refusals(fn, payloads, 0, limit, decode) == []
  {
  }

  lemma RefusalsNext(before: seq<Event>, was: seq<Event>, fn: Remote, payloads: seq<string>, i: nat, limit: nat,
                     decode: (string, string) -> Decoded)
    requires i < |payloads| && was == before + Refusals(fn, payloads, i, limit, decode)
    ensures was + RefusalAt(fn, payloads, i, limit, decode) == before + Refusals(fn, payloads, i + 1, limit, decode)
  {
    hide RefusalAt;
  }

  function Acceptances(out: seq<Instance>): seq<Event> {
    if out == [] then []
    else
      var x := out[|out| - 1];
      Acceptances(out[..|out| - 1]) + [Registered(x.key, EntryOf(x), Accepted)]
  }

  /** The gate lets an operation through: it names a function of the wanted kind and a number. */
  predicate Passes(op: Op) {
    match op
    case Requested(fn, limit, want) => limit >= 0 && fn.kind == want
    case RefreshAll(fn, limit, want) => limit >= 0 && fn.kind == want
    case IgnoreAll(fn, limit) => limit >= 0 && fn.kind == Query
    case _ => false
  }

  /** The limit an operation gives, where the gate lets it through. */
  function LimitOf(op: Op): nat {
    if Passes(op) then op.limit else 0
  }

  /** The instances an operation is handed. */
  function HandedOut(op: Op, requested: map<string, seq<string>>,
                     decode: (string, string) -> Decoded): (r: seq<Instance>)
    ensures |r| <= LimitOf(op)
  {
    if Passes(op) then Instances(op.fn, At(requested, op.fn.id), op.limit, decode) else []
  }

  /** What an operation registers, in order. */
  function EventsOf(op: Op, held: seq<Instance>, requested: map<string, seq<string>>,
                    decode: (string, string) -> Decoded): seq<Event> {
    match op
    case Refresh(fn, payload, call) =>
      if fn.kind == Query then [Registered(KeyOf(fn.id, payload), Entry(fn, call, None), Own)] else []
    case Accept(i) =>
      if i < |held| then [Registered(held[i].key, EntryOf(held[i]), Accepted)] else []
    case Ignore(_) => []
    case _ =>
      if !Passes(op) then []
      else
        var payloads := At(requested, op.fn.id);
        var refusals := Refusals(op.fn, payloads, |payloads|, op.limit, decode);
        if op.RefreshAll? then refusals + Acceptances(HandedOut(op, requested, decode)) else refusals
  }

  function WithIgnored(ignored: seq<string>, key: string): seq<string> {
    if key in ignored then ignored else ignored + [key]
  }

  function WithAllIgnored(ignored: seq<string>, out: seq<Instance>): seq<string> {
    if out == [] then ignored else WithIgnored(WithAllIgnored(ignored, out[..|out| - 1]), out[|out| - 1].key)
  }

  /** The keys declined, after an operation. */
  function IgnoredBy(op: Op, held: seq<Instance>, ignored: seq<string>, requested: map<string, seq<string>>,
                     decode: (string, string) -> Decoded): seq<string> {
    match op
    case Ignore(i) => if i < |held| then WithIgnored(ignored, held[i].key) else ignored
    case IgnoreAll(_, _) => WithAllIgnored(ignored, HandedOut(op, requested, decode))
    case _ => ignored
  }

  /** How far things have come: all that happened, all instances handed out, all keys declined. */
  datatype Story = Story(log: seq<Event>, held: seq<Instance>, ignored: seq<string>)

  /** Operations, one after the other. */
  function After(s: Story, ops: seq<Op>, requested: map<string, seq<string>>,
                 decode: (string, string) -> Decoded): Story {
    if ops == [] then s
    else
      var n := |ops| - 1;
      var before := After(s, ops[..n], requested, decode);
      Story(before.log + EventsOf(ops[n], before.held, requested, decode),
            before.held + HandedOut(ops[n], requested, decode),
            IgnoredBy(ops[n], before.held, before.ignored, requested, decode))
  }

  /** The limits some operations give, added up. */
  function LimitsOf(ops: seq<Op>): nat {
    if ops == [] then 0 else LimitsOf(ops[..|ops| - 1]) + LimitOf(ops[|ops| - 1])
  }

  lemma AfterNext(s: Story, ops: seq<Op>, i: nat, requested: map<string, seq<string>>,
                  decode: (string, string) -> Decoded)
    requires i < |ops|
    ensures
      var before := After(s, ops[..i], requested, decode);
      After(s, ops[..i + 1], requested, decode) ==
      Story(before.log + EventsOf(ops[i], before.held, requested, decode),
            before.held + HandedOut(ops[i], requested, decode),
            IgnoredBy(ops[i], before.held, before.ignored, requested, decode))
    ensures LimitsOf(ops[..i + 1]) == LimitsOf(ops[..i]) + LimitOf(ops[i])
  {
    assert ops[..i + 1][..i] == ops[..i];
  }

  lemma AfterOne(s: Story, op: Op, requested: map<string, seq<string>>, decode: (string, string) -> Decoded)
    ensures After(s, [op], requested, decode) ==
      Story(s.log + EventsOf(op, s.held, requested, decode), s.held + HandedOut(op, requested, decode),
            IgnoredBy(op, s.held, s.ignored, requested, decode))
  {
    assert [op][..0] == [];
  }

  /** One operation the gate lets through, or does not. */
  lemma AfterGate(s: Story, op: Op, requested: map<string, seq<string>>, decode: (string, string) -> Decoded)
    requires op.Requested? || op.RefreshAll? || op.IgnoreAll?
    ensures !Passes(op) ==> After(s, [op], requested, decode) == s && LimitOf(op) == 0
    ensures Passes(op) ==>
      var payloads := At(requested, op.fn.id);
      var out := Instances(op.fn, payloads, op.limit, decode);
      var refusals := Refusals(op.fn, payloads, |payloads|, op.limit, decode);
      && LimitOf(op) == op.limit
      && After(s, [op], requested, decode) ==
         Story(s.log + if op.RefreshAll? then refusals + Acceptances(out) else refusals, s.held + out,
               if op.IgnoreAll? then WithAllIgnored(s.ignored, out) else s.ignored)
  {
    AfterOne(s, op, requested, decode);
    assert s.log + [] == s.log && s.held + [] == s.held && WithAllIgnored(s.ignored, []) == s.ignored;
    hide After, Refusals, Acceptances, WithAllIgnored, Instances, At;
  }

  /** One operation that does not ask the gate. */
  lemma AfterOwn(s: Story, op: Op, requested: map<string, seq<string>>, decode: (string, string) -> Decoded)
    requires op.Refresh? || op.Accept? || op.Ignore?
    ensures LimitOf(op) == 0
    ensures op.Refresh? ==>
      After(s, [op], requested, decode) ==
      if op.fn.kind != Query then s
      else Story(s.log + [Registered(KeyOf(op.fn.id, op.payload), Entry(op.fn, op.call, None), Own)], s.held, s.ignored)
    ensures op.Accept? ==>
      After(s, [op], requested, decode) ==
      if op.instance >= |s.held| then s
      else Story(s.log + [Registered(s.held[op.instance].key, EntryOf(s.held[op.instance]), Accepted)], s.held,
        s.ignored)
    ensures op.Ignore? ==>
      After(s, [op], requested, decode) ==
      if op.instance >= |s.held| then s else Story(s.log, s.held, WithIgnored(s.ignored, s.held[op.instance].key))
  {
    AfterOne(s, op, requested, decode);
    assert s.log + [] == s.log && s.held + [] == s.held;
    hide After, WithIgnored, KeyOf;
  }

  lemma {:induction false} OnlyRegisters(fn: Remote, payloads: seq<string>, n: nat, limit: nat,
                                         decode: (string, string) -> Decoded)
    requires n <= |payloads|
    ensures forall e :: e in Refusals(fn, payloads, n, limit, decode) ==> e.Registered?
  {
    if n > 0 {
      OnlyRegisters(fn, payloads, n - 1, limit, decode);
    }
  }

  lemma {:induction false} OnlyAccepts(out: seq<Instance>)
    ensures forall e :: e in Acceptances(out) ==> e.Registered?
  {
    if out != [] {
      OnlyAccepts(out[..|out| - 1]);
    }
  }

  lemma EventsRegister(op: Op, held: seq<Instance>, requested: map<string, seq<string>>,
                       decode: (string, string) -> Decoded)
    ensures forall e :: e in EventsOf(op, held, requested, decode) ==> e.Registered?
  {
    if Passes(op) {
      OnlyRegisters(op.fn, At(requested, op.fn.id), |At(requested, op.fn.id)|, op.limit, decode);
      OnlyAccepts(HandedOut(op, requested, decode));
    }
    hide Refusals, Acceptances, HandedOut, At;
  }

  /** Application code adds to the history, and only registrations. */
  lemma {:induction false} AfterExtends(s: Story, ops: seq<Op>, requested: map<string, seq<string>>,
                                        decode: (string, string) -> Decoded)
    ensures Extends(s.log, After(s, ops, requested, decode).log)
  {
    if ops != [] {
      var n := |ops| - 1;
      var before := After(s, ops[..n], requested, decode);
      AfterExtends(s, ops[..n], requested, decode);
      EventsRegister(ops[n], before.held, requested, decode);
      hide EventsOf;
      ExtendsMore(s.log, before.log, EventsOf(ops[n], before.held, requested, decode));
    }
  }

  lemma ExtendsMore(a: seq<Event>, b: seq<Event>, more: seq<Event>)
    requires Extends(a, b) && forall e :: e in more ==> e.Registered?
    ensures Extends(a, b + more)
  {
    assert (b + more)[|a|..] == b[|a|..] + more;
  }

  /** A key's turn: a refusal is its own answer, and anything else is run. */
  function TurnOf(behave: Behaviour, log: seq<Event>, key: string, entry: Entry): Turn {
    if entry.error.Some? then Turn([], E(entry.error.value)) else behave(log, key, entry)
  }

  /** A key has its turn, with its last registration: it is answered, and then what it ran takes effect. */
  function Play(s: Story, key: string, behave: Behaviour, requested: map<string, seq<string>>,
                decode: (string, string) -> Decoded): Story {
    var last := LastOf(s.log, key);
    if last.None? then s
    else
      var turn := TurnOf(behave, s.log, key, last.value.entry);
      After(s.(log := s.log + [Answered(key, last.value.entry, turn.answer)]), turn.ops, requested, decode)
  }

  function PlayAll(s: Story, keys: seq<string>, behave: Behaviour, requested: map<string, seq<string>>,
                   decode: (string, string) -> Decoded): Story {
    if keys == [] then s
    else Play(PlayAll(s, keys[..|keys| - 1], behave, requested, decode), keys[|keys| - 1], behave, requested, decode)
  }

  lemma PlayNext(s: Story, keys: seq<string>, i: nat, behave: Behaviour, requested: map<string, seq<string>>,
                 decode: (string, string) -> Decoded)
    requires i < |keys|
    ensures PlayAll(s, keys[..i + 1], behave, requested, decode) ==
            Play(PlayAll(s, keys[..i], behave, requested, decode), keys[i], behave, requested, decode)
  {
    assert keys[..i + 1][..i] == keys[..i];
  }

  lemma {:induction false} PlayTwice(s: Story, a: seq<string>, b: seq<string>, behave: Behaviour,
                                     requested: map<string, seq<string>>, decode: (string, string) -> Decoded)
    ensures PlayAll(PlayAll(s, a, behave, requested, decode), b, behave, requested, decode) ==
            PlayAll(s, a + b, behave, requested, decode)
  {
    hide Play;
    if b == [] {
      assert a + b == a;
    } else {
      var n := |b| - 1;
      PlayTwice(s, a, b[..n], behave, requested, decode);
      SplitsLast(a, b);
    }
  }

  lemma SplitsLast(a: seq<string>, b: seq<string>)
    requires b != []
    ensures |a + b| - 1 == |a| + (|b| - 1)
    ensures (a + b)[..|a + b| - 1] == a + b[..|b| - 1] && (a + b)[|a + b| - 1] == b[|b| - 1]
    ensures a + b == a + b[..|b| - 1] + [b[|b| - 1]]
  {
  }

  /** The limits given by the queries that ran, added up. */
  function TurnLimits(behave: Behaviour, log: seq<Event>): nat {
    if log == [] then 0
    else
      var n := |log| - 1;
      TurnLimits(behave, log[..n])
      + if log[n].Answered? then LimitsOf(TurnOf(behave, log[..n], log[n].key, log[n].entry).ops) else 0
  }

  lemma TurnLimitsNext(behave: Behaviour, log: seq<Event>, e: Event)
    ensures TurnLimits(behave, log + [e]) ==
      TurnLimits(behave, log) + if e.Answered? then LimitsOf(TurnOf(behave, log, e.key, e.entry).ops) else 0
  {
    assert (log + [e])[..|log|] == log;
  }

  /** Registering gives no limits away. */
  lemma {:induction false} TurnLimitsKeep(behave: Behaviour, log: seq<Event>, more: seq<Event>)
    requires forall e :: e in more ==> e.Registered?
    ensures TurnLimits(behave, log + more) == TurnLimits(behave, log)
  {
    if more == [] {
      assert log + more == log;
    } else {
      var n := |more| - 1;
      TurnLimitsKeep(behave, log, more[..n]);
      TurnLimitsNext(behave, log + more[..n], more[n]);
      assert more[n] in more && log + more == log + more[..n] + [more[n]];
      hide TurnLimits;
    }
  }

  /** The keys registered, in the order of their first registrations. */
  function FirstKeys(log: seq<Event>): seq<string> {
    if log == [] then []
    else
      var n := |log| - 1;
      FirstKeys(log[..n]) + if log[n].Registered? && log[n].key !in RegisteredKeys(log[..n]) then [log[n].key] else []
  }

  /** The keys answered, in the order of their turns. */
  function AnsweredOrder(log: seq<Event>): seq<string> {
    if log == [] then []
    else AnsweredOrder(log[..|log| - 1]) + if log[|log| - 1].Answered? then [log[|log| - 1].key] else []
  }

  lemma OrdersNext(log: seq<Event>, e: Event)
    ensures
      FirstKeys(log + [e]) ==
      FirstKeys(log) + if e.Registered? && e.key !in RegisteredKeys(log) then [e.key] else []
    ensures AnsweredOrder(log + [e]) == AnsweredOrder(log) + if e.Answered? then [e.key] else []
  {
    assert (log + [e])[..|log|] == log;
  }

  lemma NoPlay(s: Story, behave: Behaviour, requested: map<string, seq<string>>, decode: (string, string) -> Decoded)
    ensures PlayAll(s, [], behave, requested, decode) == s
  {
  }

  lemma TurnStays(behave: Behaviour, requested: map<string, seq<string>>, space: set<string>, log: seq<Event>,
                  key: string, entry: Entry)
    requires StaysInside(behave, requested, space)
    ensures OpsInside(TurnOf(behave, log, key, entry).ops, requested, space)
  {
  }

  lemma TurnIs(s: Story, key: string, entry: Entry, behave: Behaviour, requested: map<string, seq<string>>,
               decode: (string, string) -> Decoded)
    requires LastOf(s.log, key).Some? && LastOf(s.log, key).value.entry == entry
    ensures
      var turn := TurnOf(behave, s.log, key, entry);
      && (entry.error.Some? ==> turn.answer == E(entry.error.value))
      && Play(s, key, behave, requested, decode) ==
         After(Story(s.log + [Answered(key, entry, turn.answer)], s.held, s.ignored), turn.ops, requested, decode)
  {
    hide LastOf, After;
  }

  lemma TurnReports(behave: Behaviour, log: seq<Event>, e: Event, q: map<string, Answer>, l: map<string, Answer>)
    requires Reported(log, q, l) && AnswersComeFrom(behave, log)
    requires e.Answered? && e.key !in AnsweredKeys(log) && e.answer == TurnOf(behave, log, e.key, e.entry).answer
    ensures AnswersComeFrom(behave, log + [e])
    ensures e.entry.fn.kind == Live ==> Reported(log + [e], q, l[e.key := e.answer])
    ensures e.entry.fn.kind != Live ==> Reported(log + [e], q[e.key := e.answer], l)
  {
    ReportedAnswers(log, e, q, l);
    AnswersAppend(behave, log, e);
    hide Reported, AnswersComeFrom, AnsweredKeys;
  }

  lemma PlayLimits(s: Story, key: string, behave: Behaviour, requested: map<string, seq<string>>,
                   decode: (string, string) -> Decoded)
    ensures LastOf(s.log, key).Some? ==>
      TurnLimits(behave, Play(s, key, behave, requested, decode).log) ==
      TurnLimits(behave, s.log) + LimitsOf(TurnOf(behave, s.log, key, LastOf(s.log, key).value.entry).ops)
  {
    if LastOf(s.log, key).Some? {
      var entry := LastOf(s.log, key).value.entry;
      var turn := TurnOf(behave, s.log, key, entry);
      var e := Answered(key, entry, turn.answer);
      var answered := s.(log := s.log + [e]);
      TurnIs(s, key, entry, behave, requested, decode);
      AfterExtends(answered, turn.ops, requested, decode);
      TurnLimitsNext(behave, s.log, e);
      ExtendsLimits(behave, answered.log, After(answered, turn.ops, requested, decode).log);
      hide *;
    }
  }

  /** A turn of a key that is registered continues the history with its answer. */
  lemma PlayOne(s: Story, key: string, behave: Behaviour, requested: map<string, seq<string>>,
                decode: (string, string) -> Decoded)
    ensures s.log <= Play(s, key, behave, requested, decode).log
    ensures key in RegisteredKeys(s.log) ==>
      AnsweredOrder(Play(s, key, behave, requested, decode).log) == AnsweredOrder(s.log) + [key]
  {
    if LastOf(s.log, key).Some? {
      var entry := LastOf(s.log, key).value.entry;
      var turn := TurnOf(behave, s.log, key, entry);
      var e := Answered(key, entry, turn.answer);
      var answered := s.(log := s.log + [e]);
      TurnIs(s, key, entry, behave, requested, decode);
      AfterExtends(answered, turn.ops, requested, decode);
      OrdersNext(s.log, e);
      ExtendsOrder(answered.log, After(answered, turn.ops, requested, decode).log);
      hide *;
    }
  }

  lemma {:induction false} PlayExtends(s: Story, keys: seq<string>, behave: Behaviour,
                                       requested: map<string, seq<string>>,
                                       decode: (string, string) -> Decoded)
    ensures s.log <= PlayAll(s, keys, behave, requested, decode).log
  {
    if keys != [] {
      var n := |keys| - 1;
      PlayExtends(s, keys[..n], behave, requested, decode);
      PlayOne(PlayAll(s, keys[..n], behave, requested, decode), keys[n], behave, requested, decode);
      hide Play;
    }
  }

  /** Keys that are registered are answered one after the other. */
  lemma {:induction false} PlayAnswers(s: Story, keys: seq<string>, behave: Behaviour,
                                       requested: map<string, seq<string>>,
                                       decode: (string, string) -> Decoded)
    requires forall key :: key in keys ==> key in RegisteredKeys(s.log)
    ensures AnsweredOrder(PlayAll(s, keys, behave, requested, decode).log) == AnsweredOrder(s.log) + keys
  {
    hide Play, RegisteredKeys, AnsweredOrder;
    if keys == [] {
      assert AnsweredOrder(s.log) + keys == AnsweredOrder(s.log);
    } else {
      var n := |keys| - 1;
      var before := PlayAll(s, keys[..n], behave, requested, decode);
      PlayAnswers(s, keys[..n], behave, requested, decode);
      PlayExtends(s, keys[..n], behave, requested, decode);
      PrefixRegisters(s.log, before.log);
      PlayOne(before, keys[n], behave, requested, decode);
      assert keys[n] in keys;
      SplitsLast(AnsweredOrder(s.log), keys);
    }
  }

  /** What a turn's operations register changes no answer. */
  lemma TurnEnds(behave: Behaviour, log: seq<Event>, after: seq<Event>, q: map<string, Answer>, l: map<string, Answer>)
    requires Extends(log, after) && Reported(log, q, l) && AnswersComeFrom(behave, log)
    ensures Reported(after, q, l) && AnswersComeFrom(behave, after)
  {
    hide *;
    ReportedExtends(log, after, q, l);
    AnswersExtend(behave, log, after);
  }

  lemma ExtendsOrder(log: seq<Event>, after: seq<Event>)
    requires Extends(log, after)
    ensures AnsweredOrder(after) == AnsweredOrder(log) && log <= after
  {
    OrderKept(log, after[|log|..]);
    assert log + after[|log|..] == after;
  }

  lemma {:induction false} OrderKept(log: seq<Event>, more: seq<Event>)
    requires forall e :: e in more ==> e.Registered?
    ensures AnsweredOrder(log + more) == AnsweredOrder(log)
  {
    if more == [] {
      assert log + more == log;
    } else {
      var n := |more| - 1;
      OrderKept(log, more[..n]);
      OrdersNext(log + more[..n], more[n]);
      assert more[n] in more && log + more == log + more[..n] + [more[n]];
      hide AnsweredOrder, FirstKeys;
    }
  }

  lemma ExtendsLimits(behave: Behaviour, log: seq<Event>, after: seq<Event>)
    requires Extends(log, after)
    ensures TurnLimits(behave, after) == TurnLimits(behave, log)
  {
    TurnLimitsKeep(behave, log, after[|log|..]);
    assert log + after[|log|..] == after;
  }

  /** Where nothing is answered there have been no turns. */
  lemma {:induction false} NoTurns(behave: Behaviour, log: seq<Event>)
    requires AnsweredKeys(log) == {}
    ensures AnsweredOrder(log) == [] && TurnLimits(behave, log) == 0
  {
    if log != [] {
      var n := |log| - 1;
      assert log == log[..n] + [log[n]];
      LogAppend(log[..n], log[n]);
      NoTurns(behave, log[..n]);
    }
  }

  // ---------------------------------------------------------------- the work set

  /** Each key registered is in exactly one place: waiting, taken, or answered. */
  ghost predicate Placed(order: seq<string>, batch: seq<string>, drained: set<string>, keys: set<string>) {
    && Distinct(order) && Distinct(batch)
    && SetOf(order) !! SetOf(batch) !! drained
    && keys == SetOf(order) + SetOf(batch) + drained
  }

  lemma PlacedLast(order: seq<string>, batch: seq<string>, drained: set<string>, keys: set<string>, key: string)
    requires Placed(order, batch, drained, keys) && key !in keys
    ensures Placed(order + [key], batch, drained, keys + {key})
  {
    SetOfAppend(order, key);
    assert forall k :: k in order ==> k in SetOf(order);
  }

  lemma PlacedFirst(order: seq<string>, batch: seq<string>, drained: set<string>, keys: set<string>)
    requires Placed(order, batch, drained, keys) && batch != []
    ensures Placed(order, batch[1..], drained + {batch[0]}, keys) && batch[0] !in drained
  {
    HeadLeaves(batch);
  }

  /** First registered, first answered: those answered, then those taken, then those waiting. */
  ghost predicate InOrder(order: seq<string>, batch: seq<string>, log: seq<Event>) {
    FirstKeys(log) == AnsweredOrder(log) + batch + order
  }

  lemma RegisteredInOrder(order: seq<string>, batch: seq<string>, log: seq<Event>, e: Event)
    requires InOrder(order, batch, log) && e.Registered?
    ensures InOrder(if e.key in RegisteredKeys(log) then order else order + [e.key], batch, log + [e])
  {
    OrdersNext(log, e);
    hide FirstKeys, AnsweredOrder, RegisteredKeys;
    assert AnsweredOrder(log) + [] == AnsweredOrder(log) && FirstKeys(log) + [] == FirstKeys(log);
  }

  lemma AnsweredInOrder(order: seq<string>, batch: seq<string>, log: seq<Event>, e: Event)
    requires InOrder(order, batch, log) && e.Answered? && batch != [] && e.key == batch[0]
    ensures InOrder(order, batch[1..], log + [e])
  {
    OrdersNext(log, e);
    hide FirstKeys, AnsweredOrder, RegisteredKeys;
    assert FirstKeys(log) + [] == FirstKeys(log);
    assert batch == [e.key] + batch[1..];
  }

  lemma TakenInOrder(order: seq<string>, log: seq<Event>)
    requires InOrder(order, [], log)
    ensures InOrder([], order, log)
  {
    hide FirstKeys, AnsweredOrder;
    assert AnsweredOrder(log) + [] + order == AnsweredOrder(log) + order + [];
  }

  /** The fields say what the history says: the last registration of each key, and the keys answered. */
  ghost predicate Recorded(entries: map<string, Entry>, drained: set<string>, log: seq<Event>) {
    && entries.Keys == RegisteredKeys(log)
    && drained == AnsweredKeys(log)
    && forall key :: key in entries ==> LastOf(log, key).value.entry == entries[key]
  }

  lemma RecordedRegisters(entries: map<string, Entry>, drained: set<string>, log: seq<Event>, e: Event)
    requires Recorded(entries, drained, log) && e.Registered?
    ensures Recorded(entries[e.key := e.entry], drained, log + [e])
    ensures AcceptedKeys(log + [e]) == AcceptedKeys(log) + if e.origin == Accepted then {e.key} else {}
  {
    LogAppend(log, e);
    assert forall x :: x in log + [e] <==> x in log || x == e;
  }

  lemma RecordedAnswers(entries: map<string, Entry>, drained: set<string>, log: seq<Event>, e: Event)
    requires Recorded(entries, drained, log) && e.Answered?
    ensures Recorded(entries, drained + {e.key}, log + [e])
    ensures AcceptedKeys(log + [e]) == AcceptedKeys(log)
  {
    LogAppend(log, e);
    assert forall x :: x in log + [e] <==> x in log || x == e;
  }

  /** What holds of the set at every moment. The keys taken have had their turns up to `at`. */
  ghost predicate Sound(order: seq<string>, taken: seq<string>, at: nat, drained: set<string>,
                        entries: map<string, Entry>,
                        log: seq<Event>, held: seq<Instance>)
  {
    && at <= |taken|
    && Placed(order, taken[at..], drained, entries.Keys)
    && Recorded(entries, drained, log)
    && InOrder(order, taken[at..], log)
    && WellTurned(log)
    && AcceptedKeys(log) <= KeysOf(held)
  }

  lemma SoundRegisters(order: seq<string>, taken: seq<string>, at: nat, drained: set<string>,
                       entries: map<string, Entry>,
                       log: seq<Event>, held: seq<Instance>, e: Event)
    requires Sound(order, taken, at, drained, entries, log, held)
    requires e.Registered? && (e.origin == Accepted ==> e.key in KeysOf(held))
    ensures Sound(if e.key in entries then order else order + [e.key], taken, at, drained, entries[e.key := e.entry],
      log + [e], held)
  {
    var batch := taken[at..];
    var order' := if e.key in entries then order else order + [e.key];
    assert e.key in entries <==> e.key in RegisteredKeys(log);
    RegisteredInOrder(order, batch, log, e);
    RecordedRegisters(entries, drained, log, e);
    TurnAppend(log, e);
    PlacedMore(order, batch, drained, entries, e.key, e.entry);
    hide WellTurned, InOrder, AcceptedKeys, LastOf, Placed, KeysOf, RegisteredKeys, AnsweredKeys, Recorded;
    assert Placed(order', batch, drained, entries[e.key := e.entry].Keys);
    assert InOrder(order', batch, log + [e]);
  }

  lemma PlacedMore(order: seq<string>, batch: seq<string>, drained: set<string>, entries: map<string, Entry>,
                   key: string, entry: Entry)
    requires Placed(order, batch, drained, entries.Keys)
    ensures Placed(if key in entries then order else order + [key], batch, drained, entries[key := entry].Keys)
  {
    hide Placed;
    assert entries[key := entry].Keys == entries.Keys + {key};
    if key in entries {
      assert entries[key := entry].Keys == entries.Keys;
    } else {
      PlacedLast(order, batch, drained, entries.Keys, key);
    }
  }

  lemma SoundAnswers(order: seq<string>, taken: seq<string>, at: nat, drained: set<string>, entries: map<string, Entry>,
                     log: seq<Event>, held: seq<Instance>, e: Event)
    requires Sound(order, taken, at, drained, entries, log, held)
    requires e.Answered? && at < |taken| && taken[at] == e.key && e.key in entries && e.entry == entries[e.key]
    requires e.entry.error.Some? ==> e.answer == E(e.entry.error.value)
    ensures Sound(order, taken, at + 1, drained + {e.key}, entries, log + [e], held)
  {
    var batch := taken[at..];
    assert batch[1..] == taken[at + 1..];
    PlacedFirst(order, batch, drained, entries.Keys);
    AnsweredInOrder(order, batch, log, e);
    RecordedAnswers(entries, drained, log, e);
    assert e.key !in AnsweredKeys(log);
    hide Placed, AnsweredKeys, RegisteredKeys;
    TurnAppend(log, e);
    hide WellTurned, InOrder, AcceptedKeys, LastOf, KeysOf, Recorded;
  }

  lemma SoundTakes(order: seq<string>, taken: seq<string>, at: nat, drained: set<string>, entries: map<string, Entry>,
                   log: seq<Event>, held: seq<Instance>)
    requires Sound(order, taken, at, drained, entries, log, held) && at == |taken|
    ensures Sound([], order, 0, drained, entries, log, held)
  {
    assert taken[at..] == [] && order[0..] == order;
    TakenInOrder(order, log);
    hide InOrder, Recorded, WellTurned, AcceptedKeys;
  }

  lemma SoundHolds(order: seq<string>, taken: seq<string>, at: nat, drained: set<string>, entries: map<string, Entry>,
                   log: seq<Event>, held: seq<Instance>, more: seq<Instance>)
    requires Sound(order, taken, at, drained, entries, log, held)
    ensures Sound(order, taken, at, drained, entries, log, held + more)
  {
    KeysOfAppend(held, more);
    hide InOrder, Placed, Recorded, WellTurned, AcceptedKeys, KeysOf;
  }

  lemma SetOfAppend(s: seq<string>, x: string)
    ensures SetOf(s + [x]) == SetOf(s) + {x}
  {
    assert forall y :: y in s + [x] <==> y in s || y == x;
  }

  function At(m: map<string, seq<string>>, id: string): seq<string> {
    if id in m then m[id] else []
  }

  ghost predicate Grouped(byID: map<string, seq<string>>, keys: seq<string>) {
    forall id :: At(byID, id) == PayloadsOf(keys, id)
  }

  lemma GroupedAppend(byID: map<string, seq<string>>, keys: seq<string>, key: string)
    requires Grouped(byID, keys)
    ensures LastSlash(key) < 0 ==> Grouped(byID, keys + [key])
    ensures LastSlash(key) >= 0 ==> Grouped(byID[IdOf(key) := At(byID, IdOf(key)) + [PayloadOf(key)]], keys + [key])
  {
    var after := if LastSlash(key) < 0 then byID else byID[IdOf(key) := At(byID, IdOf(key)) + [PayloadOf(key)]];
    forall id ensures At(after, id) == PayloadsOf(keys + [key], id) {
      assert (keys + [key])[..|keys|] == keys;
      assert At(byID, id) == PayloadsOf(keys, id);
    }
  }

  /** The body of newRefreshSet's loop: a key without a slash is dropped. */
  method FileKey(byID: map<string, seq<string>>, key: string, ghost keys: seq<string>)
    returns (after: map<string, seq<string>>)
    requires Grouped(byID, keys)
    ensures Grouped(after, keys + [key])
  {
    GroupedAppend(byID, keys, key);
    if LastSlash(key) < 0 {
      return byID;
    }
    var id, payload := IdOf(key), PayloadOf(key);
    return byID[id := At(byID, id) + [payload]];
  }

  /** The grouping loop of newRefreshSet. */
  method GroupByID(keys: seq<string>) returns (byID: map<string, seq<string>>)
    ensures Grouped(byID, keys)
  {
    byID := map[];
    for n := 0 to |keys|
      invariant Grouped(byID, keys[..n])
    {
      byID := FileKey(byID, keys[n], keys[..n]);
      assert keys[..n] + [keys[n]] == keys[..n + 1];
    }
    assert keys[..|keys|] == keys;
  }

  class RefreshSet {
    const requested: map<string, seq<string>>
    const decode: (string, string) -> Decoded

    var order: seq<string>
    var entries: map<string, Entry>
    var drained: set<string>
    var ignored: seq<string>
    var ignoredKeys: set<string>

    /** The instances handlers have been given so far, which they may accept or ignore at any time. */
    var held: seq<Instance>

    /** Everything that has happened, which what application code does may depend on. */
    var log: seq<Event>

    /** The keys last taken, how many of them have had their turns, and the sum of the limits given. */
    ghost var taken: seq<string>
    ghost var at: nat
    ghost var allowance: nat

    ghost predicate Valid()
      reads this
    {
      && Sound(order, taken, at, drained, entries, log, held)
      && |held| <= allowance
      && Distinct(ignored) && ignoredKeys == SetOf(ignored)
    }

    constructor (keys: seq<string>, decode: (string, string) -> Decoded)
      ensures Valid() && log == [] && held == [] && allowance == 0 && at == |taken| && drained == {} && ignored == []
      ensures this.decode == decode
      ensures Grouped(requested, keys)
    {
      var byID := GroupByID(keys);
      requested := byID;
      this.decode := decode;
      order, entries, drained, ignored, ignoredKeys, held := [], map[], {}, [], {}, [];
      log, taken, at, allowance := [], [], 0, 0;
    }

    method Add(key: string, entry: Entry, origin: Origin)
      requires Valid()
      requires origin == Accepted ==> key in KeysOf(held)
      modifies this`order, this`entries, this`log
      ensures Valid()
      ensures entries == old(entries)[key := entry]
      ensures order == if key in old(entries) then old(order) else old(order) + [key]
      ensures log == old(log) + [Registered(key, entry, origin)]
    {
      hide Sound, KeysOf, SetOf, Distinct;
      SoundRegisters(order, taken, at, drained, entries, log, held, Registered(key, entry, origin));
      if key !in entries {
        order := order + [key];
      }
      entries := entries[key := entry];
      log := log + [Registered(key, entry, origin)];
    }

    method IgnoreKey(key: string)
      requires Valid()
      modifies this`ignored, this`ignoredKeys
      ensures Valid()
      ensures ignoredKeys == old(ignoredKeys) + {key}
      ensures ignored == WithIgnored(old(ignored), key)
    {
      if key in ignoredKeys { return; }
      SetOfAppend(ignored, key);
      ignoredKeys := ignoredKeys + {key};
      ignored := ignored + [key];
    }

    /** Everything registered since the last call. */
    method Take() returns (keys: seq<string>)
      requires Valid() && at == |taken|
      modifies this`order, this`taken, this`at
      ensures Valid()
      ensures keys == old(order) && order == [] && taken == keys && at == 0
    {
      hide Sound, SetOf, Distinct;
      SoundTakes(order, taken, at, drained, entries, log, held);
      keys := order;
      order := [];
      taken, at := keys, 0;
    }

    /** One payload's turn at the gate: handed out, or refused onto its own key. */
    method GateOne(fn: Remote, payloads: seq<string>, i: nat, limit: nat, out: seq<Instance>,
                   ghost was: map<string, Entry>)
      returns (more: seq<Instance>)
      requires Valid() && i < |payloads|
      requires out == Instances(fn, payloads[..i], limit, decode)
      requires RefusalsMade(entries, fn, payloads, limit, decode, i)
      requires OnlyRefused(was, entries, fn, payloads)
      modifies this`order, this`entries, this`log
      ensures Valid() && GateEvents(old(log), log)
      ensures log == old(log) + RefusalAt(fn, payloads, i, limit, decode)
      ensures more == Instances(fn, payloads[..i + 1], limit, decode)
      ensures RefusalsMade(entries, fn, payloads, limit, decode, i + 1)
      ensures OnlyRefused(was, entries, fn, payloads)
    {
      hide Sound, Instances, RefusedIn, RefusalsMade, OnlyRefused, Distinct, SetOf, KeysOf;
      var payload := payloads[i];
      var key := KeyOf(fn.id, payload);
      InstancesAppend(fn, payloads, i, limit, decode);
      more := out;
      var decoded := decode(fn.id, payload);
      if i >= limit || decoded.Undecodable? {
        var message := if i >= limit then "refused: over the limit" else decoded.message;
        RefusalAdds(was, entries, fn, payloads, limit, decode, i, Entry(fn, Call(""), Some(message)));
        Add(key, Entry(fn, Call(""), Some(message)), Refused);
      } else {
        NoRefusal(entries, fn, payloads, limit, decode, i);
        assert log + [] == log;
        more := out + [Instance(key, fn, decoded.call)];
      }
    }

    /**
     requestedInstances. Nothing happens unless the function is of the wanted kind and the limit is
     a number of instances; otherwise the instances within the limit that decode are handed out,
     and every other payload is refused onto its own key.
     */
    method RequestedInstances(fn: Remote, limit: int, want: Kind) returns (r: Outcome<seq<Instance>>)
      requires Valid()
      modifies this`order, this`entries, this`log, this`held, this`allowance
      ensures Valid()
      ensures r.Err? <==> limit < 0 || fn.kind != want
      ensures r.Err? ==> unchanged(this)
      ensures r.Ok? ==>
        && r.value == Instances(fn, At(requested, fn.id), limit, decode)
        && held == old(held) + r.value
        && allowance == old(allowance) + limit
        && GateEvents(old(log), log)
        && log == old(log) + Refusals(fn, At(requested, fn.id), |At(requested, fn.id)|, limit, decode)
        && RefusalsMade(entries, fn, At(requested, fn.id), limit, decode, |At(requested, fn.id)|)
        && OnlyRefused(old(entries), entries, fn, At(requested, fn.id))
    {
      hide Sound, Instances, RefusalsMade, OnlyRefused, Refusals, Distinct, SetOf;
      if limit < 0 {
        return Err("a limit is a number of instances");
      }
      if fn.kind != want {
        return Err("only a registration of the wanted kind can be told to");
      }
      var out := GateAll(fn, At(requested, fn.id), limit);
      KeysOfAppend(held, out);
      SoundHolds(order, taken, at, drained, entries, log, held, out);
      held, allowance := held + out, allowance + limit;
      return Ok(out);
    }

    /** The loop over the payloads. */
    method GateAll(fn: Remote, payloads: seq<string>, limit: nat) returns (out: seq<Instance>)
      requires Valid()
      modifies this`order, this`entries, this`log
      ensures Valid()
      ensures out == Instances(fn, payloads, limit, decode)
      ensures GateEvents(old(log), log)
      ensures log == old(log) + Refusals(fn, payloads, |payloads|, limit, decode)
      ensures RefusalsMade(entries, fn, payloads, limit, decode, |payloads|)
      ensures OnlyRefused(old(entries), entries, fn, payloads)
    {
      hide Valid, GateEvents, Instances, Refusals, RefusalsMade, OnlyRefused, RefusalAt;
      out := [];
      StartsEmpty(entries, fn, payloads, limit, decode);
      NoGateEvents(log);
      NoRefusals(fn, payloads, limit, decode);
      assert log + [] == log;
      for i := 0 to |payloads|
        invariant Valid() && GateEvents(old(log), log)
        invariant out == Instances(fn, payloads[..i], limit, decode)
        invariant log == old(log) + Refusals(fn, payloads, i, limit, decode)
        invariant RefusalsMade(entries, fn, payloads, limit, decode, i)
        invariant OnlyRefused(old(entries), entries, fn, payloads)
      {
        ghost var was := log;
        out := GateOne(fn, payloads, i, limit, out, old(entries));
        GateEventsJoin(old(log), was, log);
        RefusalsNext(old(log), was, fn, payloads, i, limit, decode);
      }
      assert payloads[..|payloads|] == payloads;
    }

    /** RefreshRequested and ReconnectRequested: every instance handed out is accepted. */
    method RefreshRequested(fn: Remote, limit: int, want: Kind) returns (r: Outcome<()>)
      requires Valid()
      modifies this`order, this`entries, this`log, this`held, this`allowance
      ensures Valid()
      ensures r.Err? <==> limit < 0 || fn.kind != want
      ensures r.Err? ==> unchanged(this)
      ensures r.Ok? ==>
        && held == old(held) + Instances(fn, At(requested, fn.id), limit, decode)
        && allowance == old(allowance) + limit
        && GateEvents(old(log), log)
        && log == old(log) + (Refusals(fn, At(requested, fn.id), |At(requested, fn.id)|, limit, decode)
                              + Acceptances(Instances(fn, At(requested, fn.id), limit, decode)))
        && (forall p :: p in At(requested, fn.id) ==> SettledAt(entries, fn, At(requested, fn.id), limit, decode, p))
        && OthersKept(old(entries), entries, TouchedKeys(fn.id, At(requested, fn.id)))
    {
      hide Sound, Instances, At, RefusalsMade, OnlyRefused, Distinct, SetOf, SettledAt, OthersKept, AcceptedFirst;
      hide Refusals, Acceptances;
      var instances := RequestedInstances(fn, limit, want);
      if instances.Err? {
        return Err(instances.message);
      }
      ghost var mid := entries;
      ghost var payloads := At(requested, fn.id);
      KeysOfAppend(old(held), instances.value);
      AcceptAll(fn, limit, instances.value);
      forall p | p in payloads ensures SettledAt(entries, fn, payloads, limit, decode, p) {
        GateSettles(old(entries), mid, entries, fn, payloads, limit, decode, p);
      }
      GateKeepsOthers(old(entries), mid, entries, fn, payloads, limit, decode);
      return Ok(());
    }

    /** The loop over what the gate let through. */
    method AcceptAll(fn: Remote, limit: nat, out: seq<Instance>)
      requires Valid() && out == Instances(fn, At(requested, fn.id), limit, decode)
      requires KeysOf(out) <= KeysOf(held)
      modifies this`order, this`entries, this`log
      ensures Valid() && GateEvents(old(log), log)
      ensures log == old(log) + Acceptances(out)
      ensures AcceptedFirst(old(entries), entries, out, |out|)
    {
      hide Sound, Instances, At, Distinct, SetOf, AcceptedFirst;
      assert AcceptedFirst(entries, entries, out, 0) by { NoneAccepted(entries, out); }
      forall i, j | 0 <= i < |out| && 0 <= j < |out| && out[i].key == out[j].key ensures out[i] == out[j] {
        InstanceOfKey(fn, At(requested, fn.id), limit, decode, out[i], out[j]);
      }
      assert out[..0] == [] && out[..|out|] == out && log + [] == log;
      for i := 0 to |out|
        invariant Valid() && GateEvents(old(log), log) && held == old(held)
        invariant log == old(log) + Acceptances(out[..i])
        invariant AcceptedFirst(old(entries), entries, out, i)
      {
        assert out[..i + 1][..i] == out[..i];
        AcceptNext(old(entries), entries, out, i);
        Add(out[i].key, EntryOf(out[i]), Accepted);
      }
    }

    /** IgnoreRequested: every instance handed out is declined; what is turned away is still refused. */
    method IgnoreRequested(fn: Remote, limit: int) returns (r: Outcome<()>)
      requires Valid()
      modifies this`order, this`entries, this`log, this`held, this`allowance, this`ignored, this`ignoredKeys
      ensures Valid()
      ensures r.Err? <==> limit < 0 || fn.kind != Query
      ensures r.Err? ==> unchanged(this)
      ensures r.Ok? ==>
        && held == old(held) + Instances(fn, At(requested, fn.id), limit, decode)
        && allowance == old(allowance) + limit
        && GateEvents(old(log), log)
        && RefusalsMade(entries, fn, At(requested, fn.id), limit, decode, |At(requested, fn.id)|)
        && OnlyRefused(old(entries), entries, fn, At(requested, fn.id))
        && log == old(log) + Refusals(fn, At(requested, fn.id), |At(requested, fn.id)|, limit, decode)
        && ignored == WithAllIgnored(old(ignored), Instances(fn, At(requested, fn.id), limit, decode))
        && ignoredKeys == old(ignoredKeys) + KeysOf(Instances(fn, At(requested, fn.id), limit, decode))
    {
      hide Valid, Instances, At, Refusals, GateEvents, WithIgnored, RefusalsMade, OnlyRefused;
      var instances := RequestedInstances(fn, limit, Query);
      if instances.Err? {
        return Err(instances.message);
      }
      var out := instances.value;
      assert out[..0] == [] && out[..|out|] == out;
      for i := 0 to |out|
        invariant Valid()
        invariant ignored == WithAllIgnored(old(ignored), out[..i])
        invariant ignoredKeys == old(ignoredKeys) + KeysOf(out[..i])
        modifies this`ignored, this`ignoredKeys
      {
        assert out[..i + 1][..i] == out[..i];
        IgnoreKey(out[i].key);
        KeysOfNext(out, i);
      }
      return Ok(());
    }

    /**
     acceptTheOneInstance: the gate with a limit of one. A payload is accepted exactly when it is
     the first one sent and decodes, so a second copy of the one instance is accepted with it.
     */
    method AcceptTheOneInstance(fn: Remote, want: Kind) returns (r: Outcome<()>)
      requires Valid()
      modifies this`order, this`entries, this`log, this`held, this`allowance
      ensures Valid()
      ensures r.Err? <==> fn.kind != want
      ensures r.Err? ==> unchanged(this)
      ensures r.Ok? ==>
        && held == old(held) + Instances(fn, At(requested, fn.id), 1, decode)
        && allowance == old(allowance) + 1
        && GateEvents(old(log), log)
        && log == old(log) + (Refusals(fn, At(requested, fn.id), |At(requested, fn.id)|, 1, decode)
                              + Acceptances(Instances(fn, At(requested, fn.id), 1, decode)))
        && OthersKept(old(entries), entries, TouchedKeys(fn.id, At(requested, fn.id)))
      ensures r.Ok? ==>
        forall p :: p in At(requested, fn.id) ==> SettledAt(entries, fn, At(requested, fn.id), 1, decode, p)
      ensures r.Ok? ==> forall p :: p in At(requested, fn.id) ==>
        && KeyOf(fn.id, p) in entries
        && (entries[KeyOf(fn.id, p)].error.None? <==> p == At(requested, fn.id)[0] && decode(fn.id, p).Decoded?)
    {
      hide Refusals, Acceptances, Valid, GateEvents, Instances, OthersKept;
      r := RefreshRequested(fn, 1, want);
      ghost var payloads := At(requested, fn.id);
      if r.Ok? {
        forall p | p in payloads
          ensures KeyOf(fn.id, p) in entries
          ensures entries[KeyOf(fn.id, p)].error.None? <==> p == payloads[0] && decode(fn.id, p).Decoded?
        {
          assert SettledAt(entries, fn, payloads, 1, decode, p);
          assert Within(payloads, 1) == [payloads[0]];
        }
      }
    }

    ghost predicate Inside(space: set<string>)
      reads this
    {
      entries.Keys <= space && KeysOf(held) <= space
    }

    /** The state, as a story. */
    ghost function Told(): Story
      reads this
    {
      Story(log, held, ignored)
    }

    /**
     One thing application code does to the set, to what is told and to the limits given; what is
     told gives the entries and the order. An error it is given changes nothing.
     */
    method Execute(op: Op, ghost space: set<string>)
      requires Valid() && Inside(space) && OpInside(op, requested, space)
      modifies this`order, this`entries, this`log, this`held, this`allowance, this`ignored, this`ignoredKeys
      ensures Valid() && Inside(space) && Extends(old(log), log)
      ensures Told() == After(old(Told()), [op], requested, decode)
      ensures allowance == old(allowance) + LimitOf(op)
      ensures op.Refresh? && op.fn.kind == Query ==>
        entries == old(entries)[KeyOf(op.fn.id, op.payload) := Entry(op.fn, op.call, None)]
      ensures op.Refresh? && op.fn.kind != Query ==> unchanged(this)
      ensures op.Accept? || op.Ignore? ==> held == old(held)
      ensures op.Accept? && op.instance < |held| ==>
        && log == old(log) + [Registered(held[op.instance].key, EntryOf(held[op.instance]), Accepted)]
        && entries == old(entries)[held[op.instance].key := EntryOf(held[op.instance])]
      ensures op.Ignore? && op.instance < |held| ==> ignoredKeys == old(ignoredKeys) + {held[op.instance].key}
    {
      AfterExtends(Told(), [op], requested, decode);
      hide After, Extends;
      if op.Refresh? || op.Accept? || op.Ignore? {
        AfterOwn(Told(), op, requested, decode);
        ExecuteOwn(op, space);
      } else {
        ExecuteGate(op, space);
      }
    }

    method ExecuteOwn(op: Op, ghost space: set<string>)
      requires Valid() && Inside(space) && OpInside(op, requested, space)
      requires op.Refresh? || op.Accept? || op.Ignore?
      modifies this`order, this`entries, this`log, this`ignored, this`ignoredKeys
      ensures Valid() && Inside(space)
      ensures Told() == After(old(Told()), [op], requested, decode) && LimitOf(op) == 0
      ensures op.Refresh? && op.fn.kind == Query ==>
        entries == old(entries)[KeyOf(op.fn.id, op.payload) := Entry(op.fn, op.call, None)]
      ensures op.Refresh? && op.fn.kind != Query ==> unchanged(this)
      ensures op.Accept? && op.instance < |held| ==>
        entries == old(entries)[held[op.instance].key := EntryOf(held[op.instance])]
      ensures op.Ignore? && op.instance < |held| ==> ignoredKeys == old(ignoredKeys) + {held[op.instance].key}
    {
      hide Valid, After, KeyOf, KeysOf, LimitOf, EntryOf, WithIgnored;
      AfterOwn(Told(), op, requested, decode);
      match op {
        case Refresh(fn, payload, call) =>
          if fn.kind == Query {
            Add(KeyOf(fn.id, payload), Entry(fn, call, None), Own);
          }
        case Accept(i) =>
          if i < |held| {
            KeyIsHeld(held, i);
            Add(held[i].key, EntryOf(held[i]), Accepted);
          }
        case Ignore(i) =>
          if i < |held| {
            IgnoreKey(held[i].key);
          }
        case _ =>
      }
    }

    method ExecuteGate(op: Op, ghost space: set<string>)
      requires Valid() && Inside(space) && OpInside(op, requested, space)
      requires op.Requested? || op.RefreshAll? || op.IgnoreAll?
      modifies this`order, this`entries, this`log, this`held, this`allowance, this`ignored, this`ignoredKeys
      ensures Valid() && Inside(space)
      ensures Told() == After(old(Told()), [op], requested, decode)
      ensures allowance == old(allowance) + LimitOf(op)
    {
      hide Valid, After, KeysOf, LimitOf, TouchedKeys, Instances, At, Refusals, Acceptances, WithAllIgnored;
      hide RefusalsMade, OnlyRefused, SettledAt;
      AfterGate(Told(), op, requested, decode);
      ghost var payloads := At(requested, op.fn.id);
      ghost var mine := TouchedKeys(op.fn.id, payloads);
      if Passes(op) {
        InstancesAre(op.fn, payloads, op.limit, decode);
        KeysOfAppend(held, Instances(op.fn, payloads, op.limit, decode));
      }
      match op {
        case Requested(fn, limit, want) =>
          var r := RequestedInstances(fn, limit, want);
          if r.Ok? {
            RefusedInside(old(entries), entries, fn, payloads);
          }
        case RefreshAll(fn, limit, want) =>
          var r := RefreshRequested(fn, limit, want);
        case IgnoreAll(fn, limit) =>
          var r := IgnoreRequested(fn, limit);
          if r.Ok? {
            RefusedInside(old(entries), entries, fn, payloads);
          }
        case _ =>
      }
    }

    method ExecuteAll(ops: seq<Op>, ghost space: set<string>)
      requires Valid() && Inside(space) && OpsInside(ops, requested, space)
      modifies this`order, this`entries, this`log, this`held, this`allowance, this`ignored, this`ignoredKeys
      ensures Valid() && Inside(space) && Extends(old(log), log)
      ensures Told() == After(old(Told()), ops, requested, decode)
      ensures allowance == old(allowance) + LimitsOf(ops)
    {
      AfterExtends(Told(), ops, requested, decode);
      hide Valid, Inside, OpInside, EventsOf, HandedOut, IgnoredBy, Extends;
      assert ops[..0] == [] && ops[..|ops|] == ops;
      for i := 0 to |ops|
        invariant Valid() && Inside(space)
        invariant Told() == After(old(Told()), ops[..i], requested, decode)
        invariant allowance == old(allowance) + LimitsOf(ops[..i])
      {
        AfterNext(old(Told()), ops, i, requested, decode);
        AfterOne(Told(), ops[i], requested, decode);
        Execute(ops[i], space);
      }
    }

    /**
     One key's turn. It is played by the last registration of the key, and the key is done with
     before its query runs, so whatever the query registers cannot bring it back.
     */
    method TakeTurn(key: string, q: map<string, Answer>, l: map<string, Answer>, behave: Behaviour,
                    ghost space: set<string>)
      returns (q': map<string, Answer>, l': map<string, Answer>)
      requires Valid() && Inside(space) && StaysInside(behave, requested, space)
      requires at < |taken| && taken[at] == key
      requires Reported(log, q, l) && AnswersComeFrom(behave, log)
      modifies this
      ensures Valid() && Inside(space)
      ensures taken == old(taken) && at == old(at) + 1 && drained == old(drained) + {key}
      ensures LastOf(old(log), key).Some?
      ensures Told() == Play(old(Told()), key, behave, requested, decode)
      ensures allowance == old(allowance) + LimitsOf(TurnOf(behave, old(log), key,
        LastOf(old(log), key).value.entry).ops)
      ensures Reported(log, q', l') && AnswersComeFrom(behave, log)
    {
      hide Valid, StaysInside, OpsInside, Reported, AnswersComeFrom, LastOf, TurnOf, LimitsOf, After, Play, Extends;
      hide KeysOf;
      var turn, entry := Answering(key, q, l, behave, space);
      ghost var answered := log;
      ExecuteAll(turn.ops, space);
      if entry.fn.kind == Live {
        q', l' := q, l[key := turn.answer];
      } else {
        q', l' := q[key := turn.answer], l;
      }
      TurnEnds(behave, answered, log, q', l');
    }

    /** The answer itself, before what the query registers. */
    method Answering(key: string, ghost q: map<string, Answer>, ghost l: map<string, Answer>, behave: Behaviour,
                     ghost space: set<string>)
      returns (turn: Turn, entry: Entry)
      requires Valid() && Inside(space) && StaysInside(behave, requested, space)
      requires at < |taken| && taken[at] == key
      requires Reported(log, q, l) && AnswersComeFrom(behave, log)
      modifies this`drained, this`at, this`log
      ensures Valid() && Inside(space)
      ensures at == old(at) + 1 && drained == old(drained) + {key}
      ensures LastOf(old(log), key).Some? && LastOf(old(log), key).value.entry == entry
      ensures turn == TurnOf(behave, old(log), key, entry) && OpsInside(turn.ops, requested, space)
      ensures Play(old(Told()), key, behave, requested, decode) == After(Told(), turn.ops, requested, decode)
      ensures AnswersComeFrom(behave, log)
      ensures if entry.fn.kind == Live then Reported(log, q, l[key := turn.answer]) else Reported(log,
        q[key := turn.answer], l)
    {
      hide Sound, SetOf, Distinct, KeysOf, StaysInside, OpsInside, Reported, AnswersComeFrom, LastOf, AnsweredKeys;
      hide TurnOf, After, Play;
      Last(key);
      entry := entries[key];
      turn := TurnOf(behave, log, key, entry);
      ghost var e := Answered(key, entry, turn.answer);
      TurnStays(behave, requested, space, log, key, entry);
      TurnIs(Told(), key, entry, behave, requested, decode);
      TurnReports(behave, log, e, q, l);
      SoundAnswers(order, taken, at, drained, entries, log, held, e);
      drained := drained + {key};
      at := at + 1;
      log := log + [Answered(key, entry, turn.answer)];
    }

    /** A key taken is waiting for its turn, and its entry is its last registration. */
    lemma Last(key: string)
      requires Valid() && at < |taken| && taken[at] == key
      ensures key in entries && key !in AnsweredKeys(log)
      ensures LastOf(log, key).Some? && LastOf(log, key).value.entry == entries[key]
    {
      HeadLeaves(taken[at..]);
    }

    /**
     resolveExplicit, whatever the queries it runs register. It ends, and what it leaves is what is
     there at the start with each key registered, by the handler or by those queries, given one turn
     in the order of first registrations. Each is answered in the map of its kind.
     */
    method ResolveExplicit(behave: Behaviour, ghost space: set<string>)
      returns (q: map<string, Answer>, l: map<string, Answer>)
      requires Valid() && Inside(space) && StaysInside(behave, requested, space)
      requires at == |taken| && drained == {}
      modifies this
      ensures Valid() && order == [] && at == |taken|
      ensures old(log) <= log
      ensures Told() == PlayAll(old(Told()), FirstKeys(log), behave, requested, decode)
      ensures AnsweredOrder(log) == FirstKeys(log)
      ensures AnsweredKeys(log) == RegisteredKeys(log) == q.Keys + l.Keys
      ensures Reported(log, q, l)
      ensures AnswersComeFrom(behave, log)
      ensures allowance == old(allowance) + TurnLimits(behave, log)
    {
      hide Valid, StaysInside, Reported, AnswersComeFrom, LastOf, AnsweredKeys, RegisteredKeys, Play, PlayAll;
      hide TurnLimits, AnsweredOrder, FirstKeys, KeysOf;
      q, l := map[], map[];
      Settles();
      Nothing(behave, log);
      NoTurns(behave, log);
      NoPlay(Told(), behave, requested, decode);
      ghost var turns: seq<string> := [];
      var keys := Take();
      while |keys| > 0
        invariant Valid() && Inside(space)
        invariant taken == keys && at == 0 && order == []
        invariant Reported(log, q, l) && AnswersComeFrom(behave, log)
        invariant Told() == PlayAll(old(Told()), turns, behave, requested, decode) && AnsweredOrder(log) == turns
        invariant allowance == old(allowance) + TurnLimits(behave, log)
        decreases |space - drained|
      {
        TakenAreRegistered();
        PlayTwice(old(Told()), turns, keys, behave, requested, decode);
        PlayAnswers(Told(), keys, behave, requested, decode);
        q, l := DrainBatch(keys, q, l, behave, space);
        turns := turns + keys;
        keys := Take();
      }
      Settles();
      PlayExtends(old(Told()), turns, behave, requested, decode);
      ReportedKeys(log, q, l);
    }

    lemma TakenAreRegistered()
      requires Valid() && at == 0
      ensures forall key :: key in taken ==> key in RegisteredKeys(log)
    {
      assert taken[0..] == taken;
      assert forall key :: key in taken ==> key in SetOf(taken);
    }

    /** With nothing waiting and nothing taken, everything registered has been answered. */
    lemma Settles()
      requires Valid()
      ensures drained == AnsweredKeys(log)
      ensures order == [] && at == |taken| ==>
        AnsweredKeys(log) == RegisteredKeys(log) && AnsweredOrder(log) == FirstKeys(log)
    {
      assert AnsweredOrder(log) + [] + [] == AnsweredOrder(log);
    }

    /** One round of the drain: each key taken has its turn. */
    method DrainBatch(keys: seq<string>, q: map<string, Answer>, l: map<string, Answer>, behave: Behaviour,
                      ghost space: set<string>)
      returns (q': map<string, Answer>, l': map<string, Answer>)
      requires Valid() && Inside(space) && StaysInside(behave, requested, space)
      requires |keys| > 0 && taken == keys && at == 0
      requires Reported(log, q, l) && AnswersComeFrom(behave, log)
      modifies this
      ensures Valid() && Inside(space) && at == |taken|
      ensures Told() == PlayAll(old(Told()), keys, behave, requested, decode)
      ensures Reported(log, q', l') && AnswersComeFrom(behave, log)
      ensures allowance - old(allowance) == TurnLimits(behave, log) - old(TurnLimits(behave, log))
      ensures |space - drained| < |space - old(drained)|
    {
      hide Valid, StaysInside, Reported, AnswersComeFrom, LastOf, AnsweredKeys, RegisteredKeys, Play, PlayAll;
      hide TurnLimits, LimitsOf, TurnOf, KeysOf;
      q', l' := q, l;
      ghost var before := drained;
      FirstIsNew(space);
      NoPlay(Told(), behave, requested, decode);
      assert keys[..0] == [] && keys[..|keys|] == keys;
      for i := 0 to |keys|
        invariant Valid() && Inside(space)
        invariant taken == keys && at == i
        invariant before <= drained && (i > 0 ==> keys[0] in drained)
        invariant Told() == PlayAll(old(Told()), keys[..i], behave, requested, decode)
        invariant Reported(log, q', l') && AnswersComeFrom(behave, log)
        invariant allowance - old(allowance) == TurnLimits(behave, log) - old(TurnLimits(behave, log))
      {
        PlayNext(old(Told()), keys, i, behave, requested, decode);
        PlayLimits(Told(), keys[i], behave, requested, decode);
        q', l' := TakeTurn(keys[i], q', l', behave, space);
      }
      Shrinks(space, before, drained, keys[0]);
    }

    lemma FirstIsNew(space: set<string>)
      requires Valid() && Inside(space) && at == 0 && taken != []
      ensures taken[0] in space && taken[0] !in drained
    {
      assert taken[0..] == taken;
      HeadLeaves(taken);
    }

    /** Of the keys the client named, no more are run than the limits given add up to. */
    lemma ClientRunsAreBounded()
      requires Valid()
      ensures |ClientRuns(log)| <= allowance
    {
      assert ClientRuns(log) <= AcceptedKeys(log) by {
        forall p | 0 <= p < |log| && RanForClient(log, p) ensures log[p].key in AcceptedKeys(log) {
          var e := LastOf(log[..p], log[p].key).value;
          assert e in log[..p];
        }
      }
      SubsetIsFewer(ClientRuns(log), KeysOf(held));
      FewKeys(held);
    }
  }

  /**
   A whole command or form: the handler does what it likes to a fresh set, and then the set is
   drained. What the response reports is told by the handler's operations, then by one turn for each
   key registered; every key the handler registers is in it; and what runs for the client is no more
   than the limits that the handler and the queries that ran gave.
   */
  method Respond(keys: seq<string>, decode: (string, string) -> Decoded, handler: seq<Op>, behave: Behaviour,
                 ghost space: set<string>)
    returns (q: map<string, Answer>, l: map<string, Answer>, work: RefreshSet)
    requires forall byID :: Grouped(byID, keys) ==> OpsInside(handler, byID, space) && StaysInside(behave, byID, space)
    ensures work.Valid() && Grouped(work.requested, keys) && work.decode == decode
    ensures
      var handled := After(Story([], [], []), handler, work.requested, decode);
      && handled.log <= work.log
      && RegisteredKeys(handled.log) <= q.Keys + l.Keys
      && work.Told() == PlayAll(handled, FirstKeys(work.log), behave, work.requested, decode)
    ensures AnsweredOrder(work.log) == FirstKeys(work.log)
    ensures AnsweredKeys(work.log) == RegisteredKeys(work.log) == q.Keys + l.Keys
    ensures Reported(work.log, q, l) && AnswersComeFrom(behave, work.log)
    ensures |ClientRuns(work.log)| <= work.allowance == LimitsOf(handler) + TurnLimits(behave, work.log)
  {
    work := new RefreshSet(keys, decode);
    assert work.Told() == Story([], [], []);
    hide Sound, Reported, AnswersComeFrom, OpsInside, StaysInside, After, PlayAll, AnsweredKeys, RegisteredKeys;
    hide ClientRuns, TurnLimits, LimitsOf;
    work.ExecuteAll(handler, space);
    ghost var handled := work.log;
    q, l := work.ResolveExplicit(behave, space);
    work.ClientRunsAreBounded();
    PrefixRegisters(handled, work.log);
  }

  lemma PrefixRegisters(before: seq<Event>, log: seq<Event>)
    requires before <= log
    ensures RegisteredKeys(before) <= RegisteredKeys(log)
  {
    assert forall e :: e in before ==> e in log;
  }
}
