/**
 The promise table of a streamed data response (data.go): the ids the client's chunks travel
 under, and the loop that writes each promise as it settles while the table is still growing.
 */
module PromiseTable {

  /** A promised value, by identity. */
  datatype Deferred = Deferred(name: nat)

  /** The promises a settled value's own chunk holds, in the order its serialization meets them. */
  type Chunks = Deferred -> seq<Deferred>

  ghost predicate Distinct<T>(s: seq<T>) {
    forall i, j :: 0 <= i < j < |s| ==> s[i] != s[j]
  }

  function Elements<T>(s: seq<T>): set<T> {
    set x | x in s
  }

  lemma ElementsAppend<T>(s: seq<T>, x: T)
    ensures Elements(s + [x]) == Elements(s) + {x}
  {
    assert forall y :: y in s + [x] <==> y in s || y == x;
  }

  lemma {:induction false} DistinctCounts<T>(s: seq<T>)
    requires Distinct(s)
    ensures |Elements(s)| == |s|
  {
    if s != [] {
      var n := |s| - 1;
      DistinctCounts(s[..n]);
      ElementsAppend(s[..n], s[n]);
      assert s == s[..n] + [s[n]];
    }
  }

  lemma SubsetIsFewer<T>(a: set<T>, b: set<T>)
    requires a <= b
    ensures |a| <= |b|
    ensures |a| == |b| ==> a == b
  {
    assert b == a + (b - a);
  }

  /** The ids of a table of n promises: 1 to n. */
  function Ids(n: nat): (r: set<nat>)
    ensures forall i: nat :: i in r <==> 1 <= i <= n
    ensures |r| == n
  {
    if n == 0 then {} else Ids(n - 1) + {n}
  }

  // ---------------------------------------------------------------- the table, as a list

  /** The table after a promise is met. */
  function Meet(order: seq<Deferred>, d: Deferred): seq<Deferred> {
    if d in order then order else order + [d]
  }

  function MeetAll(order: seq<Deferred>, ds: seq<Deferred>): seq<Deferred> {
    if ds == [] then order
    else Meet(MeetAll(order, ds[..|ds| - 1]), ds[|ds| - 1])
  }

  /** The table once these ids have been written, one chunk after another. */
  function TableAfter(order: seq<Deferred>, chunks: Chunks, written: seq<nat>): seq<Deferred> {
    if written == [] then order
    else
      var n := |written| - 1;
      var before := TableAfter(order, chunks, written[..n]);
      if 1 <= written[n] <= |before| then MeetAll(before, chunks(before[written[n] - 1])) else before
  }

  /** Each id written was in the table when it was written, given the chunks written before it. */
  ghost predicate Written(order: seq<Deferred>, chunks: Chunks, written: seq<nat>) {
    if written == [] then true
    else
      var n := |written| - 1;
      Written(order, chunks, written[..n]) && 1 <= written[n] <= |TableAfter(order, chunks, written[..n])|
  }

  lemma {:induction false} MeetAllGrows(order: seq<Deferred>, ds: seq<Deferred>)
    ensures order <= MeetAll(order, ds)
    ensures Distinct(order) ==> Distinct(MeetAll(order, ds))
    ensures Elements(MeetAll(order, ds)) == Elements(order) + Elements(ds)
  {
    if ds != [] {
      var n := |ds| - 1;
      MeetAllGrows(order, ds[..n]);
      ElementsAppend(ds[..n], ds[n]);
      assert ds == ds[..n] + [ds[n]];
      ElementsAppend(MeetAll(order, ds[..n]), ds[n]);
    }
  }

  /** Where a value is first met. */
  function FirstAt(ds: seq<Deferred>, d: Deferred): (k: nat)
    requires d in ds
    ensures k < |ds| && ds[k] == d && d !in ds[..k]
  {
    var n := |ds| - 1;
    if d in ds[..n] then
      assert ds[..n][..FirstAt(ds[..n], d)] == ds[..FirstAt(ds[..n], d)];
      FirstAt(ds[..n], d)
    else n
  }

  lemma FirstIsUnique(ds: seq<Deferred>, d: Deferred, k: nat)
    requires k < |ds| && ds[k] == d && d !in ds[..k]
    ensures FirstAt(ds, d) == k
  {
    var f := FirstAt(ds, d);
    assert forall i :: 0 <= i < k ==> ds[..k][i] == ds[i];
    assert forall i :: 0 <= i < f ==> ds[..f][i] == ds[i];
  }

  /** A fresh table lists what the head holds, each promise once, in the order it was first met. */
  lemma {:induction false} HeadIsInEncounterOrder(ds: seq<Deferred>)
    ensures Distinct(MeetAll([], ds)) && Elements(MeetAll([], ds)) == Elements(ds)
    ensures forall d :: d in MeetAll([], ds) ==> d in ds
    ensures forall i, j :: 0 <= i < j < |MeetAll([], ds)| ==>
      FirstAt(ds, MeetAll([], ds)[i]) < FirstAt(ds, MeetAll([], ds)[j])
  {
    MeetAllGrows([], ds);
    forall d | d in MeetAll([], ds) ensures d in ds {
      assert d in Elements(MeetAll([], ds));
    }
    if ds != [] {
      var n := |ds| - 1;
      HeadIsInEncounterOrder(ds[..n]);
      MeetAllGrows([], ds[..n]);
      var before := MeetAll([], ds[..n]);
      forall d | d in before ensures FirstAt(ds, d) == FirstAt(ds[..n], d) < n {
        var k := FirstAt(ds[..n], d);
        assert ds[..n][..k] == ds[..k];
        FirstIsUnique(ds, d, k);
      }
      if ds[n] !in before {
        assert ds[n] !in Elements(before);
        FirstIsUnique(ds, ds[n], n);
      }
    }
  }

  // ---------------------------------------------------------------- what a run must have written

  /** Every promise a listed promise's chunk holds is listed too. */
  ghost predicate Closed(s: set<Deferred>, chunks: Chunks) {
    forall d :: d in s ==> Elements(chunks(d)) <= s
  }

  /** Nothing enters the table but what the head or a listed promise's chunk holds. */
  lemma {:induction false} TableStaysWithin(order: seq<Deferred>, chunks: Chunks, written: seq<nat>, s: set<Deferred>)
    requires Elements(order) <= s && Closed(s, chunks)
    ensures Elements(TableAfter(order, chunks, written)) <= s
  {
    if written != [] {
      var n := |written| - 1;
      var before := TableAfter(order, chunks, written[..n]);
      TableStaysWithin(order, chunks, written[..n], s);
      if 1 <= written[n] <= |before| {
        var d := before[written[n] - 1];
        assert d in Elements(before);
        MeetAllGrows(before, chunks(d));
      }
    }
  }

  lemma {:induction false} TableGrows(order: seq<Deferred>, chunks: Chunks, written: seq<nat>)
    ensures order <= TableAfter(order, chunks, written)
    ensures Distinct(order) ==> Distinct(TableAfter(order, chunks, written))
  {
    if written != [] {
      var n := |written| - 1;
      TableGrows(order, chunks, written[..n]);
      var before := TableAfter(order, chunks, written[..n]);
      if 1 <= written[n] <= |before| {
        MeetAllGrows(before, chunks(before[written[n] - 1]));
      }
    }
  }

  /** What a written promise's chunk holds is in the table from then on. */
  lemma {:induction false} WrittenChunksAreListed(order: seq<Deferred>, chunks: Chunks, written: seq<nat>, k: nat)
    requires Written(order, chunks, written) && k < |written|
    ensures 1 <= written[k] <= |TableAfter(order, chunks, written)|
    ensures
      var after := TableAfter(order, chunks, written);
      Elements(chunks(after[written[k] - 1])) <= Elements(after)
  {
    hide Elements, MeetAll;
    var n := |written| - 1;
    var before := TableAfter(order, chunks, written[..n]);
    MeetAllGrows(before, chunks(before[written[n] - 1]));
    if k < n {
      WrittenChunksAreListed(order, chunks, written[..n], k);
    }
  }

  /** A run is complete when the ids written are exactly 1 to the size of the table, each once. */
  ghost predicate Complete(order: seq<Deferred>, chunks: Chunks, written: seq<nat>) {
    && Written(order, chunks, written)
    && Distinct(written)
    && Elements(written) == Ids(|TableAfter(order, chunks, written)|)
  }

  /** A complete run has written the least set of promises that holds the head's and is closed. */
  lemma CompleteIsLeastClosed(order: seq<Deferred>, chunks: Chunks, written: seq<nat>)
    requires Complete(order, chunks, written)
    ensures Elements(order) <= Elements(TableAfter(order, chunks, written))
    ensures Closed(Elements(TableAfter(order, chunks, written)), chunks)
    ensures forall s :: Elements(order) <= s && Closed(s, chunks) ==> Elements(TableAfter(order, chunks, written)) <= s
  {
    hide TableAfter, Written;
    var after := TableAfter(order, chunks, written);
    TableGrows(order, chunks, written);
    forall d | d in after ensures Elements(chunks(d)) <= Elements(after) {
      var i :| 0 <= i < |after| && after[i] == d;
      assert i + 1 in Elements(written);
      var k :| 0 <= k < |written| && written[k] == i + 1;
      WrittenChunksAreListed(order, chunks, written, k);
    }
    forall s | Elements(order) <= s && Closed(s, chunks) ensures Elements(after) <= s {
      TableStaysWithin(order, chunks, written, s);
    }
  }

  /** Whatever order things settle in, two complete runs write the same promises. */
  lemma SettlementOrderIsFree(order: seq<Deferred>, chunks: Chunks, written: seq<nat>, other: seq<nat>)
    requires Complete(order, chunks, written) && Complete(order, chunks, other)
    ensures Elements(TableAfter(order, chunks, written)) == Elements(TableAfter(order, chunks, other))
    ensures Distinct(order) ==> |written| == |other|
  {
    var a, b := TableAfter(order, chunks, written), TableAfter(order, chunks, other);
    CompleteIsLeastClosed(order, chunks, written);
    CompleteIsLeastClosed(order, chunks, other);
    if Distinct(order) {
      TableGrows(order, chunks, written);
      TableGrows(order, chunks, other);
      DistinctCounts(a);
      DistinctCounts(b);
      DistinctCounts(written);
      DistinctCounts(other);
    }
  }

  // ---------------------------------------------------------------- promiseTable

  class Table {
    var ids: map<Deferred, nat>
    var order: seq<Deferred>

    /** The ids are exactly 1 to n, in the order the promises were first met. */
    ghost predicate Valid()
      reads this
    {
      && Distinct(order)
      && ids.Keys == Elements(order)
      && forall i :: 0 <= i < |order| ==> ids[order[i]] == i + 1
    }

    constructor ()
      ensures Valid() && order == []
    {
      ids, order := map[], [];
    }

    method Id(d: Deferred) returns (id: nat)
      requires Valid()
      modifies this
      ensures Valid()
      ensures order == Meet(old(order), d)
      ensures 1 <= id <= |order| && order[id - 1] == d
      ensures d in old(ids) ==> id == old(ids)[d] && ids == old(ids)
    {
      if d in ids {
        var i :| 0 <= i < |order| && order[i] == d;
        assert ids[order[i]] == i + 1;
        return ids[d];
      }
      id := |order| + 1;
      ElementsAppend(order, d);
      ids := ids[d := id];
      order := order + [d];
    }

    /** What serializing a chunk does to the table. */
    method IdAll(ds: seq<Deferred>)
      requires Valid()
      modifies this
      ensures Valid() && order == MeetAll(old(order), ds) && old(order) <= order
    {
      MeetAllGrows(order, ds);
      for i := 0 to |ds|
        invariant Valid() && order == MeetAll(old(order), ds[..i])
      {
        var _ := Id(ds[i]);
        assert ds[..i + 1][..i] == ds[..i];
      }
      assert ds[..|ds|] == ds;
    }

    /**
     settled. Any started promise may be the next to settle, and the visitor may go away at any
     wait. Each id is written at most once and only when it is in the table; unless the visitor
     goes away the run is complete when it returns, having never waited on nothing.
     */
    method Settled(chunks: Chunks, ghost universe: set<Deferred>) returns (written: seq<nat>, cancelled: bool)
      requires Valid()
      requires Elements(order) <= universe && Closed(universe, chunks)
      modifies this
      ensures Valid()
      ensures Distinct(written) && Written(old(order), chunks, written)
      ensures order == TableAfter(old(order), chunks, written)
      ensures !cancelled ==> Complete(old(order), chunks, written)
    {
      hide TableAfter, Written, Closed, MeetAll, Distinct;
      written, cancelled := [], false;
      var started: nat := 0;
      var pending: set<nat> := {};
      NothingWritten(order, chunks);
      while true
        invariant Valid() && started <= |order| && Elements(order) <= universe
        invariant Running(old(order), chunks, written, order, started, pending)
        decreases |universe| - |written|
      {
        // One goroutine for each promise listed since the last look at the table.
        pending := pending + (Ids(|order|) - Ids(started));
        started := |order|;
        CountWritten(written, started, universe, order);
        if |written| == started {
          return;
        }
        if * {
          cancelled := true;
          return;
        }
        assert pending == Ids(started) - Elements(written);
        var id: nat :| id in pending;
        written := WriteOne(chunks, written, id, started, pending, old(order), universe);
        pending := pending - {id};
      }
    }

    /** One settled promise: its chunk is written, and whatever that chunk holds is met. */
    method WriteOne(chunks: Chunks, written: seq<nat>, id: nat, ghost started: nat, ghost pending: set<nat>,
                    ghost head: seq<Deferred>, ghost universe: set<Deferred>)
      returns (more: seq<nat>)
      requires Valid() && Elements(order) <= universe && Closed(universe, chunks)
      requires Running(head, chunks, written, order, started, pending)
      requires id in pending && started == |order|
      modifies this
      ensures Valid() && old(order) <= order && Elements(order) <= universe
      ensures more == written + [id]
      ensures Running(head, chunks, more, order, started, pending - {id})
    {
      var d := order[id - 1];
      assert d in Elements(order);
      MeetAllGrows(order, chunks(d));
      WriteNext(head, chunks, written, id);
      ElementsAppend(written, id);
      IdAll(chunks(d));
      more := written + [id];
    }
  }

  /** The loop's state: what is written is right so far, and what is started but not written is pending. */
  ghost predicate Running(head: seq<Deferred>, chunks: Chunks, written: seq<nat>, order: seq<Deferred>, started: nat,
                          pending: set<nat>)
  {
    && Distinct(written) && Written(head, chunks, written)
    && order == TableAfter(head, chunks, written)
    && Elements(written) <= Ids(started)
    && pending == Ids(started) - Elements(written)
  }

  lemma NothingWritten(head: seq<Deferred>, chunks: Chunks)
    ensures Running(head, chunks, [], head, 0, {})
  {
  }

  /** While fewer ids are written than started, something started is still to be written. */
  lemma CountWritten(written: seq<nat>, started: nat, universe: set<Deferred>, order: seq<Deferred>)
    requires Distinct(written) && Elements(written) <= Ids(started)
    requires Distinct(order) && started == |order|
    ensures |written| == started ==> Elements(written) == Ids(started)
    ensures |written| != started ==> exists id: nat :: id in Ids(started) - Elements(written)
    ensures Elements(order) <= universe && |written| != started ==> |written| < |universe|
  {
    DistinctCounts(written);
    DistinctCounts(order);
    SubsetIsFewer(Elements(written), Ids(started));
    if Elements(order) <= universe {
      SubsetIsFewer(Elements(order), universe);
    }
    if |written| != started {
      assert Ids(started) != Elements(written);
      var id: nat :| id in Ids(started) && id !in Elements(written);
      assert id in Ids(started) - Elements(written);
    }
  }

  lemma WriteNext(order: seq<Deferred>, chunks: Chunks, written: seq<nat>, id: nat)
    requires Written(order, chunks, written)
    requires 1 <= id <= |TableAfter(order, chunks, written)|
    ensures Written(order, chunks, written + [id])
    ensures
      var before := TableAfter(order, chunks, written);
      TableAfter(order, chunks, written + [id]) == MeetAll(before, chunks(before[id - 1]))
  {
    hide MeetAll;
    var all := written + [id];
    assert all[..|written|] == written && all[|written|] == id;
    assert Written(order, chunks, all[..|written|]);
  }
}
