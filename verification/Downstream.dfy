/**
 The response pipe (downstream.go): an application goroutine hands its response, frame by
 frame over an unbuffered channel, to the reader that holds it. Every interleaving of the
 application, the reader and a cancellation is a sequence of steps of this machine.

 A send and the receive that takes it are one step, as they are on an unbuffered channel. Closing
 the pipe is two: `release` closes `done` (Release) and then cancels the context (Cancel), and the
 application can move in between.
 */
module Downstream {
  import opened Wrappers

  /** Bytes are only moved, cut and compared here, so characters stand for them. */
  type Bytes = string
  type Header = map<string, seq<string>>

  datatype Frame = Data(bytes: Bytes) | Flush

  /** What a reader can observe, in order: bytes, and the places the application flushed. */
  datatype Item = Byte(b: char) | Mark

  datatype Problem = EOF | DownstreamPanic | ContextError | ClosedPipe

  /** One answer of readFlush. */
  datatype Read = Chunk(bytes: Bytes) | Flushed | Ended(problem: Problem)

  /** `detached` is a fetch's pipe; `detect` is net/http's content sniffing. */
  datatype Config = Config(detached: bool, detect: Bytes -> string)

  datatype Snapshot = Snapshot(status: int, header: Header)

  /** Where the application goroutine is; the last six are its deferred calls. */
  datatype App =
    | Ready
    | Sending(frame: Frame)
    | Left(panicking: bool)
    | PanicRecorded
    | CancelRecorded
    | Committed
    | FramesClosed
    | Gone

  /** A recorded panic, and whether it came before the commit (preCommit). */
  datatype Panicked = NoPanic | BeforeCommit | AfterCommit

  /** The caller of startDownstream: not answered yet, given the response, or panicked. */
  datatype Caller = Waiting | Handed | Raised

  /**
   `snapshot` is the committed status and header. The last four fields are history: the frames the
   application tried to send, those taken by the reader, whether any send failed, and the reader's
   answers so far.
   */
  datatype State = State(
    header: Header,
    snapshot: Option<Snapshot>,
    app: App,
    panicked: Panicked,
    cancelled: bool,
    done: bool,
    ctxDone: bool,
    caller: Caller,
    cur: Bytes,
    eof: bool,
    issued: seq<Frame>,
    taken: seq<Frame>,
    lost: bool,
    answers: seq<Read>)

  function Initial(): State {
    State(map[], None, Ready, NoPanic, false, false, false, Waiting, [], false, [], [], false, [])
  }

  function Get(h: Header, name: string): string {
    if name in h && h[name] != [] then h[name][0] else ""
  }

  /** What commit snapshots: the header as it is, with a sniffed content type where none is set. */
  function Committing(c: Config, h: Header, status: int, first: Bytes): Snapshot {
    if "Content-Type" !in h && |first| > 0 && status != 204 && status != 304 && Get(h, "Transfer-Encoding") == ""
    then Snapshot(status, h["Content-Type" := [c.detect(first)]])
    else Snapshot(status, h)
  }

  function Commit(c: Config, s: State, status: int, first: Bytes): State {
    if s.snapshot.Some? then s else s.(snapshot := Some(Committing(c, s.header, status, first)))
  }

  /** The arm of readFlush's select that is taken when several are ready. */
  datatype Arm = Frames | Done | ContextDone

  datatype Step =
    // the application
    | EditHeader(h: Header)
    | WriteHeader(status: int)
    | Write(p: Bytes)
    | FlushCall
    | Return
    | Panic
    | SendFails
    | Unwind
    // the caller and the reader
    | Start
    | ReadFlush(size: nat, arm: Arm)
    | Release
    // anybody
    | Cancel

  /** The send's other alternatives: the reader closed, or a detached pipe's context ended. */
  predicate MayFail(c: Config, s: State) {
    s.done || (c.detached && s.ctxDone)
  }

  predicate ArmReady(c: Config, s: State, arm: Arm) {
    match arm
    case Frames => s.app.Sending? || Closed(s.app)
    case Done => s.done
    case ContextDone => c.detached && s.ctxDone
  }

  predicate Closed(app: App) {
    app.FramesClosed? || app.Gone?
  }

  predicate Can(c: Config, s: State, step: Step) {
    match step
    case EditHeader(_) => s.app.Ready?
    case WriteHeader(_) => s.app.Ready?
    case Write(_) => s.app.Ready?
    case FlushCall => s.app.Ready?
    case Return => s.app.Ready?
    case Panic => s.app.Ready?
    case SendFails => s.app.Sending? && MayFail(c, s)
    case Unwind => !s.app.Ready? && !s.app.Sending? && !s.app.Gone?
    case Start => s.caller.Waiting? && s.snapshot.Some?
    case ReadFlush(_, arm) => s.caller.Handed? && (s.cur != [] || s.eof || ArmReady(c, s, arm))
    case Release => s.caller.Handed?
    case Cancel => true
  }

  function Send(s: State, f: Frame): State {
    s.(app := Sending(f), issued := s.issued + [f])
  }

  function Min(a: nat, b: nat): nat {
    if a <= b then a else b
  }

  /** The reader's answer when nothing is buffered and every frame is gone. */
  function EndOf(s: State): Problem {
    if s.panicked.AfterCommit? then DownstreamPanic
    else if s.cancelled then ContextError
    else EOF
  }

  function Answer(s: State, r: Read): State {
    s.(answers := s.answers + [r])
  }

  /** One call of readFlush with a buffer of this size. */
  function ReadOnce(c: Config, s: State, size: nat, arm: Arm): State
    requires s.cur != [] || s.eof || ArmReady(c, s, arm)
  {
    if s.cur != [] then
      var n := Min(size, |s.cur|);
      Answer(s.(cur := s.cur[n..]), Chunk(s.cur[..n]))
    else if s.eof then Answer(s, Ended(EOF))
    else
      match arm
      case Frames =>
        if s.app.Sending? then
          var received := s.(app := Ready, taken := s.taken + [s.app.frame]);
          (match s.app.frame
           case Flush => Answer(received, Flushed)
           case Data(data) =>
             var n := Min(size, |data|);
             Answer(received.(cur := data[n..]), Chunk(data[..n])))
        else Answer(s.(eof := true), Ended(EndOf(s)))
      case Done => Answer(s, Ended(ClosedPipe))
      case ContextDone => Answer(s, Ended(ContextError))
  }

  /** The deferred calls of the application's goroutine, one at a time. */
  function Unwound(c: Config, s: State): State {
    match s.app
    case Left(panicking) =>
      s.(app := PanicRecorded,
        panicked := if !panicking then NoPanic else if s.snapshot.None? then BeforeCommit else AfterCommit)
    case PanicRecorded => s.(app := CancelRecorded, cancelled := c.detached && s.ctxDone)
    case CancelRecorded => Commit(c, s, 200, []).(app := Committed)
    case Committed => s.(app := FramesClosed)
    case _ => s.(app := Gone)
  }

  function Next(c: Config, s: State, step: Step): State
    requires Can(c, s, step)
  {
    match step
    case EditHeader(h) => s.(header := h)
    case WriteHeader(status) => if 100 <= status < 200 && status != 101 then s else Commit(c, s, status, [])
    case Write(p) => if p == [] then Commit(c, s, 200, p) else Send(Commit(c, s, 200, p), Data(p))
    case FlushCall => Send(Commit(c, s, 200, []), Flush)
    case Return => s.(app := Left(false))
    case Panic => s.(app := Left(true))
    case SendFails => s.(app := Ready, lost := true)
    case Unwind => Unwound(c, s)
    case Start => if s.panicked.BeforeCommit? then s.(caller := Raised, done := true) else s.(caller := Handed)
    case ReadFlush(size, arm) => ReadOnce(c, s, size, arm)
    case Release => s.(done := true)
    case Cancel => s.(ctxDone := true)
  }

  // ---------------------------------------------------------------- what is observed

  function BytesOf(b: Bytes): seq<Item> {
    seq(|b|, i requires 0 <= i < |b| => Byte(b[i]))
  }

  function ItemsOf(f: Frame): seq<Item> {
    match f case Data(b) => BytesOf(b) case Flush => [Mark]
  }

  /** The frames' contents in order, with a mark where a flush stands. */
  function Items(frames: seq<Frame>): seq<Item> {
    if frames == [] then [] else Items(frames[..|frames| - 1]) + ItemsOf(frames[|frames| - 1])
  }

  function Seen(r: Read): seq<Item> {
    match r case Chunk(b) => BytesOf(b) case Flushed => [Mark] case Ended(_) => []
  }

  /** Everything the reader has been given so far. */
  function Observed(answers: seq<Read>): seq<Item> {
    if answers == [] then [] else Observed(answers[..|answers| - 1]) + Seen(answers[|answers| - 1])
  }

  /** An earlier read has already reported the end, or a problem other than EOF. */
  predicate Failed(answers: seq<Read>) {
    exists r :: r in answers && r.Ended? && r.problem != EOF
  }

  predicate SawEOF(answers: seq<Read>) {
    Ended(EOF) in answers
  }

  lemma ObservedAppend(answers: seq<Read>, r: Read)
    ensures Observed(answers + [r]) == Observed(answers) + Seen(r)
    ensures Failed(answers + [r]) <==> Failed(answers) || (r.Ended? && r.problem != EOF)
    ensures SawEOF(answers + [r]) <==> SawEOF(answers) || r == Ended(EOF)
  {
    var all := answers + [r];
    assert all[..|answers|] == answers && all[|answers|] == r;
    assert forall x :: x in all <==> x in answers || x == r;
  }

  lemma ItemsAppend(frames: seq<Frame>, f: Frame)
    ensures Items(frames + [f]) == Items(frames) + ItemsOf(f)
  {
    assert (frames + [f])[..|frames|] == frames;
  }

  lemma SplitBytes(b: Bytes, n: nat)
    requires n <= |b|
    ensures BytesOf(b[..n]) + BytesOf(b[n..]) == BytesOf(b)
  {
  }

  // ---------------------------------------------------------------- the invariant

  predicate Unwinding(app: App) {
    !app.Ready? && !app.Sending?
  }

  predicate CancelKnown(app: App) {
    app.CancelRecorded? || app.Committed? || app.FramesClosed? || app.Gone?
  }

  /** Nothing is sent before the commit, and a failed send has left its reason behind. */
  ghost predicate SendInv(c: Config, s: State) {
    && (s.snapshot.None? ==> s.issued == [] && !s.app.Sending? && !s.app.Committed? && !Closed(s.app))
    && (!s.lost ==> s.issued == if s.app.Sending? then s.taken + [s.app.frame] else s.taken)
    && (s.lost ==> MayFail(c, s))
    && (s.lost && CancelKnown(s.app) ==> s.done || s.cancelled)
  }

  /** A panic before the commit means nothing was ever sent, and its response is never handed out. */
  ghost predicate EndInv(c: Config, s: State) {
    && (!s.panicked.NoPanic? ==> Unwinding(s.app) && !s.app.Left?)
    && (s.panicked.BeforeCommit? ==> s.issued == [])
    && (s.cancelled ==> c.detached && s.ctxDone && CancelKnown(s.app))
    && (s.caller.Handed? ==> s.snapshot.Some? && !s.panicked.BeforeCommit?)
    && (!s.caller.Handed? ==> s.answers == [] && s.cur == [] && !s.eof && s.taken == [])
    && (s.eof ==> Closed(s.app) && s.cur == [])
  }

  /** The reader has everything that was taken, up to what it buffers, and its first end is the true one. */
  ghost predicate ReadInv(s: State) {
    && Observed(s.answers) + BytesOf(s.cur) == Items(s.taken)
    && (SawEOF(s.answers) ==> s.eof)
    && (s.eof && !Failed(s.answers) ==> EndOf(s) == EOF)
  }

  ghost predicate Inv(c: Config, s: State) {
    SendInv(c, s) && EndInv(c, s) && ReadInv(s)
  }

  /** A read from the buffer. */
  lemma BufferedKeepsReads(s: State, n: nat)
    requires ReadInv(s) && n <= |s.cur| && !s.eof
    ensures ReadInv(Answer(s.(cur := s.cur[n..]), Chunk(s.cur[..n])))
  {
    hide Observed, Items, Failed, SawEOF, BytesOf;
    ObservedAppend(s.answers, Chunk(s.cur[..n]));
    SplitBytes(s.cur, n);
    assert Observed(s.answers) + BytesOf(s.cur[..n]) + BytesOf(s.cur[n..]) == Observed(s.answers) + BytesOf(s.cur);
  }

  /** A frame is received: it is as if its bytes had been buffered and then read. */
  lemma ReceiveKeepsReads(s: State, n: nat)
    requires ReadInv(s) && s.cur == [] && !s.eof && s.app.Sending? && s.app.frame.Data? && n <= |s.app.frame.bytes|
    ensures
      var data := s.app.frame.bytes;
      ReadInv(Answer(s.(app := Ready, taken := s.taken + [Data(data)], cur := data[n..]), Chunk(data[..n])))
  {
    var data := s.app.frame.bytes;
    var buffered := s.(app := Ready, taken := s.taken + [Data(data)], cur := data);
    ItemsAppend(s.taken, Data(data));
    assert BytesOf(s.cur) == [];
    assert Observed(s.answers) + BytesOf(data) == Items(s.taken) + BytesOf(data);
    BufferedKeepsReads(buffered, n);
  }

  lemma MarkKeepsReads(s: State)
    requires ReadInv(s) && s.cur == [] && !s.eof
    ensures ReadInv(Answer(s.(app := Ready, taken := s.taken + [Flush]), Flushed))
  {
    ObservedAppend(s.answers, Flushed);
    ItemsAppend(s.taken, Flush);
    assert BytesOf("") == [];
  }

  lemma EndKeepsReads(s: State, eof: bool, problem: Problem)
    requires ReadInv(s) && (s.eof ==> eof) && (problem == EOF ==> eof)
    requires eof && problem == EOF && !s.eof ==> EndOf(s) == EOF
    requires eof && !s.eof ==> problem == EndOf(s)
    ensures ReadInv(Answer(s.(eof := eof), Ended(problem)))
  {
    ObservedAppend(s.answers, Ended(problem));
    hide Observed, Items, Failed, SawEOF, BytesOf;
  }

  lemma ReadKeepsReads(c: Config, s: State, size: nat, arm: Arm)
    requires EndInv(c, s) && ReadInv(s) && Can(c, s, ReadFlush(size, arm))
    ensures ReadInv(ReadOnce(c, s, size, arm))
  {
    hide ReadInv;
    if s.cur != [] {
      BufferedKeepsReads(s, Min(size, |s.cur|));
    } else if s.eof {
      EndKeepsReads(s, true, EOF);
      assert s.(eof := true) == s;
    } else {
      match arm
      case Frames =>
        if s.app.Sending? {
          match s.app.frame
          case Flush => MarkKeepsReads(s);
          case Data(data) => ReceiveKeepsReads(s, Min(size, |data|));
        } else {
          EndKeepsReads(s, true, EndOf(s));
        }
      case Done =>
        EndKeepsReads(s, false, ClosedPipe);
        assert s.(eof := false) == s;
      case ContextDone =>
        EndKeepsReads(s, false, ContextError);
        assert s.(eof := false) == s;
    }
  }

  lemma CommitKeeps(c: Config, s: State, status: int, first: Bytes)
    requires SendInv(c, s) && EndInv(c, s)
    ensures SendInv(c, Commit(c, s, status, first)) && EndInv(c, Commit(c, s, status, first))
    ensures Commit(c, s, status, first).snapshot.Some?
  {
  }

  lemma SendKeeps(c: Config, s: State, f: Frame)
    requires SendInv(c, s) && EndInv(c, s) && s.snapshot.Some? && s.app.Ready?
    ensures SendInv(c, Send(s, f)) && EndInv(c, Send(s, f))
  {
  }

  lemma UnwindKeeps(c: Config, s: State)
    requires SendInv(c, s) && EndInv(c, s) && Can(c, s, Unwind)
    ensures SendInv(c, Unwound(c, s)) && EndInv(c, Unwound(c, s))
  {
    match s.app
    case CancelRecorded => CommitKeeps(c, s, 200, []);
    case _ =>
  }

  lemma ReadKeeps(c: Config, s: State, size: nat, arm: Arm)
    requires SendInv(c, s) && EndInv(c, s) && Can(c, s, ReadFlush(size, arm))
    ensures SendInv(c, ReadOnce(c, s, size, arm)) && EndInv(c, ReadOnce(c, s, size, arm))
  {
  }

  /** Every step keeps the invariant about sending and ending. */
  lemma NextKeepsEnds(c: Config, s: State, step: Step)
    requires SendInv(c, s) && EndInv(c, s) && Can(c, s, step)
    ensures SendInv(c, Next(c, s, step)) && EndInv(c, Next(c, s, step))
  {
    match step
    case WriteHeader(status) => CommitKeeps(c, s, status, []);
    case Write(p) =>
      CommitKeeps(c, s, 200, p);
      if p != [] {
        SendKeeps(c, Commit(c, s, 200, p), Data(p));
      }
    case FlushCall =>
      CommitKeeps(c, s, 200, []);
      SendKeeps(c, Commit(c, s, 200, []), Flush);
    case Unwind => UnwindKeeps(c, s);
    case ReadFlush(size, arm) => ReadKeeps(c, s, size, arm);
    case _ =>
  }

  /** Only a read changes what was observed; the end it will report is fixed by then. */
  lemma OthersLeaveReads(c: Config, s: State, step: Step)
    requires Can(c, s, step) && !step.ReadFlush? && (s.eof ==> Closed(s.app))
    ensures
      var s' := Next(c, s, step);
      && s'.answers == s.answers && s'.cur == s.cur && s'.taken == s.taken && s'.eof == s.eof
      && (s.eof ==> EndOf(s') == EndOf(s))
  {
    hide Commit;
    match step
    case WriteHeader(status) => CommitLeavesRest(c, s, status, []);
    case Write(p) => CommitLeavesRest(c, s, 200, p);
    case FlushCall => CommitLeavesRest(c, s, 200, []);
    case ReadFlush(_, _) =>
    case Unwind => UnwindLeavesReads(c, s);
    case EditHeader(_) =>
    case Start =>
    case _ =>
  }

  lemma UnwindLeavesReads(c: Config, s: State)
    requires Can(c, s, Unwind) && (s.eof ==> Closed(s.app))
    ensures
      var s' := Unwound(c, s);
      && s'.answers == s.answers && s'.cur == s.cur && s'.taken == s.taken && s'.eof == s.eof
      && (s.eof ==> EndOf(s') == EndOf(s))
  {
    CommitLeavesRest(c, s, 200, []);
    hide Commit;
  }

  lemma CommitLeavesRest(c: Config, s: State, status: int, first: Bytes)
    ensures Commit(c, s, status, first) == s.(snapshot := Commit(c, s, status, first).snapshot)
  {
  }

  lemma OthersKeepReads(c: Config, s: State, step: Step)
    requires EndInv(c, s) && ReadInv(s) && Can(c, s, step) && !step.ReadFlush?
    ensures ReadInv(Next(c, s, step))
  {
    OthersLeaveReads(c, s, step);
    hide Observed, Items, Failed, SawEOF, BytesOf, Next, EndOf;
  }

  /** Every step keeps the invariant. */
  lemma NextKeepsInv(c: Config, s: State, step: Step)
    requires Inv(c, s) && Can(c, s, step)
    ensures Inv(c, Next(c, s, step))
  {
    NextKeepsEnds(c, s, step);
    if step.ReadFlush? {
      ReadKeepsReads(c, s, step.size, step.arm);
    } else {
      OthersKeepReads(c, s, step);
    }
  }

  // ---------------------------------------------------------------- runs

  ghost predicate Admits(c: Config, s: State, steps: seq<Step>)
    decreases |steps|
  {
    steps == [] || (Can(c, s, steps[0]) && Admits(c, Next(c, s, steps[0]), steps[1..]))
  }

  ghost function Run(c: Config, s: State, steps: seq<Step>): State
    requires Admits(c, s, steps)
    decreases |steps|
  {
    if steps == [] then s else Run(c, Next(c, s, steps[0]), steps[1..])
  }

  lemma {:induction false} RunKeepsInv(c: Config, s: State, steps: seq<Step>)
    requires Inv(c, s) && Admits(c, s, steps)
    ensures Inv(c, Run(c, s, steps))
    decreases |steps|
  {
    if steps != [] {
      NextKeepsInv(c, s, steps[0]);
      RunKeepsInv(c, Next(c, s, steps[0]), steps[1..]);
    }
  }

  /** The status and header, once committed, never change. */
  lemma {:induction false} SnapshotIsFinal(c: Config, s: State, steps: seq<Step>)
    requires Admits(c, s, steps) && s.snapshot.Some?
    ensures Run(c, s, steps).snapshot == s.snapshot
    decreases |steps|
  {
    if steps != [] {
      StepKeepsSnapshot(c, s, steps[0]);
      SnapshotIsFinal(c, Next(c, s, steps[0]), steps[1..]);
    }
  }

  lemma StepKeepsSnapshot(c: Config, s: State, step: Step)
    requires Can(c, s, step) && s.snapshot.Some?
    ensures Next(c, s, step).snapshot == s.snapshot
  {
    hide Committing;
    match step
    case ReadFlush(size, arm) => ReadKeepsSnapshot(c, s, size, arm);
    case Unwind => UnwindKeepsSnapshot(c, s);
    case _ =>
  }

  lemma ReadKeepsSnapshot(c: Config, s: State, size: nat, arm: Arm)
    requires Can(c, s, ReadFlush(size, arm))
    ensures ReadOnce(c, s, size, arm).snapshot == s.snapshot
  {
    hide Min, EndOf;
  }

  lemma UnwindKeepsSnapshot(c: Config, s: State)
    requires s.snapshot.Some?
    ensures Unwound(c, s).snapshot == s.snapshot
  {
    hide Commit;
    CommittedOnce(c, s);
  }

  lemma CommittedOnce(c: Config, s: State)
    requires s.snapshot.Some?
    ensures Commit(c, s, 200, []) == s
  {
  }

  ghost predicate Prefix(a: seq<Item>, b: seq<Item>) {
    |a| <= |b| && b[..|a|] == a
  }

  lemma {:induction false} MoreFramesMoreItems(frames: seq<Frame>, more: seq<Frame>)
    ensures Prefix(Items(frames), Items(frames + more))
  {
    if more == [] {
      assert frames + more == frames;
    } else {
      var n := |more| - 1;
      MoreFramesMoreItems(frames, more[..n]);
      assert frames + more == (frames + more[..n]) + [more[n]];
      ItemsAppend(frames + more[..n], more[n]);
    }
  }

  /**
   In every interleaving: nothing is read or sent before the commit, and what the reader has
   observed is a prefix of what was delivered, flush marks at the same offsets. As long as no
   send has failed it is a prefix of everything the application wrote.
   */
  lemma EveryRunDelivers(c: Config, steps: seq<Step>)
    requires Admits(c, Initial(), steps)
    ensures
      var s := Run(c, Initial(), steps);
      && (s.snapshot.None? ==> s.issued == [] && s.answers == [])
      && Prefix(Observed(s.answers), Items(s.taken))
      && (!s.lost ==> Prefix(Observed(s.answers), Items(s.issued)))
      && (s.lost ==> MayFail(c, s))
  {
    RunKeepsInv(c, Initial(), steps);
    var s := Run(c, Initial(), steps);
    if !s.lost && s.app.Sending? {
      MoreFramesMoreItems(s.taken, [s.app.frame]);
    }
  }

  /** The reader has every write and flush, and the application returned: no panic, no cancellation. */
  ghost predicate Whole(s: State) {
    && Observed(s.answers) == Items(s.issued)
    && s.panicked.NoPanic? && !s.cancelled && Closed(s.app)
  }

  /**
   When EOF may be believed. A reader that has not closed and has had no other problem reported gets
   EOF only when every write and flush of the application reached it in full, and then the
   application returned: it neither panicked nor had its context cancelled.
   */
  lemma EOFMeansComplete(c: Config, steps: seq<Step>)
    requires Admits(c, Initial(), steps)
    ensures
      var s := Run(c, Initial(), steps);
      SawEOF(s.answers) && !Failed(s.answers) && !s.done ==> Whole(s) && !s.lost
  {
    RunKeepsInv(c, Initial(), steps);
    var s := Run(c, Initial(), steps);
    if SawEOF(s.answers) && !Failed(s.answers) && !s.done {
      assert s.answers != [];
      assert EndOf(s) == EOF;
      assert BytesOf(s.cur) == [];
    }
  }

  /**
   The other direction: once the application has gone and everything was read, the next read
   reports EOF exactly when it returned normally with its context not cancelled.
   */
  lemma EndIsReported(c: Config, steps: seq<Step>, size: nat)
    requires Admits(c, Initial(), steps)
    requires
      var s := Run(c, Initial(), steps);
      s.caller.Handed? && s.cur == [] && !s.eof && Closed(s.app)
    ensures
      var s := Run(c, Initial(), steps);
      var s' := Next(c, s, ReadFlush(size, Frames));
      && |s'.answers| == |s.answers| + 1
      && (s'.answers[|s.answers|] == Ended(EOF) <==> s.panicked.NoPanic? && !s.cancelled)
      && (s'.answers[|s.answers|] == Ended(DownstreamPanic) <==> !s.panicked.NoPanic?)
      && (s'.answers[|s.answers|] == Ended(EOF) ==> s.lost ==> s.done)
  {
    RunKeepsInv(c, Initial(), steps);
  }

  // ---------------------------------------------------------------- a reader that reads on

  ghost predicate Reachable(c: Config, s: State) {
    exists steps :: Admits(c, Initial(), steps) && Run(c, Initial(), steps) == s
  }

  lemma {:induction false} Extend(c: Config, s: State, steps: seq<Step>, step: Step)
    requires Admits(c, s, steps) && Can(c, Run(c, s, steps), step)
    ensures Admits(c, s, steps + [step]) && Run(c, s, steps + [step]) == Next(c, Run(c, s, steps), step)
    decreases |steps|
  {
    hide Can, Next;
    if steps == [] {
      assert ([] + [step])[1..] == [];
    } else {
      Extend(c, Next(c, s, steps[0]), steps[1..], step);
      assert (steps + [step])[1..] == steps[1..] + [step];
      assert (steps + [step])[0] == steps[0];
    }
  }

  lemma Go(c: Config, s: State, step: Step) returns (s': State)
    requires Reachable(c, s) && Can(c, s, step)
    ensures s' == Next(c, s, step) && Reachable(c, s')
  {
    var steps :| Admits(c, Initial(), steps) && Run(c, Initial(), steps) == s;
    Extend(c, Initial(), steps, step);
    s' := Next(c, s, step);
  }

  /** A fetch's handler whose only write failed because the context was cancelled returns. */
  lemma WriteLost(c: Config) returns (s: State)
    requires c.detached
    ensures Reachable(c, s)
    ensures s.app == Left(false) && s.ctxDone && !s.done && s.caller.Handed? && s.answers == [] &&
      s.issued == [Data("a")]
    ensures s.cur == [] && !s.eof && s.snapshot.Some?
  {
    hide Reachable;
    s := Opened(c, Write("a"));
    s := Go(c, s, Cancel);
    s := Go(c, s, SendFails);
    s := Go(c, s, Return);
  }

  lemma WriteLostEnded(c: Config) returns (s: State)
    requires c.detached
    ensures Reachable(c, s)
    ensures s.app == FramesClosed && s.cancelled && s.panicked.NoPanic? && !s.done && s.caller.Handed?
    ensures s.answers == [] && s.issued == [Data("a")] && s.cur == [] && !s.eof
  {
    s := WriteLost(c);
    s := Go(c, s, Unwind);
    s := Go(c, s, Unwind);
    s := Go(c, s, Unwind);
    s := Go(c, s, Unwind);
  }

  lemma NothingObserved()
    ensures Observed([]) == [] && !Failed([]) && !SawEOF([])
  {
  }

  /**
   EOFMeansComplete has to exclude earlier problems: readFlush remembers that it reached the
   end but not how, so a reader that reads on after a context error is told EOF although a
   write was never delivered.
   */
  lemma ReadingOnMisleads(c: Config)
    requires c.detached
    ensures exists s ::
      Reachable(c, s) && SawEOF(s.answers) && !s.done && s.issued == [Data("a")] && Observed(s.answers) == []
  {
    hide Reachable, Observed, SawEOF;
    var s := WriteLostEnded(c);
    NothingObserved();
    ObservedAppend(s.answers, Ended(ContextError));
    s := ReadsEnd(c, s);
    ObservedAppend(s.answers, Ended(EOF));
    s := ReadsEnd(c, s);
    assert [] + [] == Observed(s.answers);
  }

  /** A response committed and handed to its reader. */
  lemma Opened(c: Config, step: Step) returns (s: State)
    requires step == WriteHeader(200) || step == Write("a")
    ensures Reachable(c, s) && s.caller.Handed? && s.answers == [] && s.cur == [] && !s.eof && !s.done && !s.lost &&
      !s.ctxDone
    ensures s.snapshot.Some? && s.panicked.NoPanic? && s.taken == []
    ensures step.Write? ==> s.app == Sending(Data("a")) && s.issued == [Data("a")]
    ensures step.WriteHeader? ==> s.app == Ready && s.issued == []
  {
    hide Reachable;
    StartReachable(c);
    s := Go(c, Initial(), step);
    s := Go(c, s, Start);
  }

  lemma StartReachable(c: Config)
    ensures Reachable(c, Initial())
  {
    assert Run(c, Initial(), []) == Initial();
  }

  /** An application that has left runs its deferred calls. */
  lemma Unwinds(c: Config, s: State) returns (s': State)
    requires Reachable(c, s) && s.app.Left? && s.snapshot.Some?
    ensures Reachable(c, s') && s'.app == FramesClosed
    ensures s'.panicked == (if s.app.panicking then AfterCommit else NoPanic) &&
      s'.cancelled == (c.detached && s.ctxDone)
    ensures s'.caller == s.caller && s'.done == s.done && s'.answers == s.answers && s'.cur == s.cur && s'.eof == s.eof
    ensures s'.issued == s.issued
  {
    hide Reachable;
    s' := Go(c, s, Unwind);
    s' := Go(c, s', Unwind);
    s' := Go(c, s', Unwind);
    s' := Go(c, s', Unwind);
  }

  /** A read once every frame is gone. */
  lemma ReadsEnd(c: Config, s: State) returns (s': State)
    requires Reachable(c, s) && s.app == FramesClosed && s.caller.Handed? && s.cur == []
    ensures Reachable(c, s') && s' == Answer(s.(eof := true), Ended(if s.eof then EOF else EndOf(s)))
  {
    hide Reachable;
    s' := Go(c, s, ReadFlush(1, Frames));
  }

  /** After a panic was reported the next read is told EOF, whether or not the reader closed since. */
  lemma PanicThenEOF(c: Config, closed: bool) returns (s: State)
    ensures Reachable(c, s) && SawEOF(s.answers) && Failed(s.answers) && s.done == closed && s.panicked.AfterCommit?
  {
    hide Reachable;
    s := Opened(c, WriteHeader(200));
    s := Go(c, s, Panic);
    s := Unwinds(c, s);
    ObservedAppend(s.answers, Ended(DownstreamPanic));
    s := ReadsEnd(c, s);
    ObservedAppend(s.answers, Ended(EOF));
    s := ReadsEnd(c, s);
    if closed {
      s := Go(c, s, Release);
    }
  }

  /** The reader closes while the application sends, and the application returns. */
  lemma SendDropped(c: Config) returns (s: State)
    ensures Reachable(c, s) && s.app == Left(false) && s.done && !s.ctxDone && s.caller.Handed?
    ensures s.answers == [] && s.cur == [] && !s.eof && s.snapshot.Some? && s.issued == [Data("a")]
  {
    hide Reachable;
    s := Opened(c, Write("a"));
    s := Go(c, s, Release);
    s := Go(c, s, SendFails);
    s := Go(c, s, Return);
  }

  lemma Cancelled(c: Config, s: State) returns (s': State)
    requires Reachable(c, s)
    ensures Reachable(c, s') && s' == s.(ctxDone := true)
  {
    hide Reachable;
    s' := Go(c, s, Cancel);
  }

  /**
   A reader that has closed can be told EOF although a write was never delivered, on either kind of
   pipe: the send can fail, and the application return, after `done` is closed and before the
   context is cancelled.
   */
  lemma ClosedThenEOF(c: Config) returns (s: State)
    ensures Reachable(c, s) && SawEOF(s.answers) && !Failed(s.answers) && s.done && s.ctxDone
    ensures s.issued == [Data("a")] && Observed(s.answers) == []
  {
    hide Reachable, Observed, SawEOF, Failed;
    s := SendDropped(c);
    s := Unwinds(c, s);
    s := Cancelled(c, s);
    NothingObserved();
    ObservedAppend(s.answers, Ended(EOF));
    s := ReadsEnd(c, s);
    assert [] + [] == Observed(s.answers);
  }

  ghost predicate Inevitable(c: Config, failed: bool, closed: bool) {
    forall s :: Reachable(c, s) && SawEOF(s.answers) && Failed(s.answers) == failed && s.done == closed ==> Whole(s)
  }

  /**
   Exactly when EOF may be believed, by what its reader knows: whether an earlier read reported
   another problem, and whether it has closed the pipe.
   */
  lemma EOFBelievedExactly(c: Config, failed: bool, closed: bool)
    ensures Inevitable(c, failed, closed) <==> !failed && !closed
  {
    hide Reachable, Whole;
    if failed {
      var s := PanicThenEOF(c, closed);
      assert !Whole(s) by { PanickedIsNotWhole(s); }
    } else if closed {
      var s := ClosedThenEOF(c);
      assert !Whole(s) by { UnreadIsNotWhole(s); }
    } else {
      forall s | Reachable(c, s) && SawEOF(s.answers) && Failed(s.answers) == failed && s.done == closed
        ensures Whole(s)
      {
        ReachableEOF(c, s);
      }
    }
  }

  lemma ReachableEOF(c: Config, s: State)
    requires Reachable(c, s) && SawEOF(s.answers) && !Failed(s.answers) && !s.done
    ensures Whole(s)
  {
    var steps :| Admits(c, Initial(), steps) && Run(c, Initial(), steps) == s;
    EOFMeansComplete(c, steps);
  }

  lemma PanickedIsNotWhole(s: State)
    requires s.panicked.AfterCommit?
    ensures !Whole(s)
  {
  }

  /** Along the run `done` is closed only where the context has been cancelled already. */
  ghost predicate CancelledFirst(c: Config, s: State, steps: seq<Step>)
    requires Admits(c, s, steps)
    decreases |steps|
  {
    (s.done ==> s.ctxDone) && (steps != [] ==> CancelledFirst(c, Next(c, s, steps[0]), steps[1..]))
  }

  /** A lost frame is known to the context by the time the application's end is looked at. */
  ghost predicate LossKnown(c: Config, s: State) {
    s.lost && CancelKnown(s.app) ==> s.cancelled
  }

  lemma NextKeepsLossKnown(c: Config, s: State, step: Step)
    requires c.detached && SendInv(c, s) && LossKnown(c, s) && (s.done ==> s.ctxDone) && Can(c, s, step)
    ensures LossKnown(c, Next(c, s, step))
  {
    hide Committing;
    match step
    case Unwind =>
    case ReadFlush(_, _) =>
    case _ =>
  }

  lemma {:induction false} RunKeepsLossKnown(c: Config, s: State, steps: seq<Step>)
    requires c.detached && Inv(c, s) && LossKnown(c, s) && Admits(c, s, steps) && CancelledFirst(c, s, steps)
    ensures LossKnown(c, Run(c, s, steps))
    decreases |steps|
  {
    if steps != [] {
      NextKeepsInv(c, s, steps[0]);
      NextKeepsLossKnown(c, s, steps[0]);
      RunKeepsLossKnown(c, Next(c, s, steps[0]), steps[1..]);
    }
  }

  /** Were the context cancelled first, closing a fetch's pipe could make no EOF false. */
  lemma CancelledFirstIsSafe(c: Config, steps: seq<Step>)
    requires c.detached && Admits(c, Initial(), steps) && CancelledFirst(c, Initial(), steps)
    ensures
      var s := Run(c, Initial(), steps);
      SawEOF(s.answers) && !Failed(s.answers) ==> Whole(s) && !s.lost
  {
    RunKeepsInv(c, Initial(), steps);
    RunKeepsLossKnown(c, Initial(), steps);
    var s := Run(c, Initial(), steps);
    if SawEOF(s.answers) && !Failed(s.answers) {
      assert s.answers != [];
      assert EndOf(s) == EOF;
      assert BytesOf(s.cur) == [];
    }
  }

  lemma UnreadIsNotWhole(s: State)
    requires s.issued == [Data("a")] && Observed(s.answers) == []
    ensures !Whole(s)
  {
    ItemsAppend([], Data("a"));
    assert [] + [Data("a")] == [Data("a")];
    assert |Items(s.issued)| == |Items([])| + 1;
  }

  // ---------------------------------------------------------------- the consumer

  datatype Outcome = Completed | Aborted | ClientGone

  /** The answers end with the first one that is an end. */
  ghost predicate UpToEnd(answers: seq<Read>) {
    && answers != [] && answers[|answers| - 1].Ended?
    && forall i :: 0 <= i < |answers| - 1 ==> !answers[i].Ended?
  }

  lemma EndsOnce(answers: seq<Read>, k: nat)
    requires UpToEnd(answers)
    ensures answers != [] && (k < |answers| ==> (answers[k].Ended? <==> k + 1 == |answers|))
  {
  }

  lemma NoBytes(b: Bytes)
    ensures |b| == 0 ==> BytesOf(b) == []
  {
  }

  /**
   writeResponse's loop (middleware.go:569-615) over a pipe's body: `answers` are what
   readFlush answers it, and the client takes `patience` writes before it is gone.
   */
  method WriteResponse(answers: seq<Read>, patience: nat) returns (client: seq<Item>, outcome: Outcome, used: nat)
    requires UpToEnd(answers)
    ensures 0 < used <= |answers|
    ensures !outcome.ClientGone? ==> used == |answers| && client == Observed(answers)
    ensures outcome.Aborted? ==> answers[|answers| - 1] == Ended(DownstreamPanic)
    ensures outcome.Completed? ==> answers[|answers| - 1] != Ended(DownstreamPanic)
    ensures outcome.ClientGone? ==> used < |answers| && client == Observed(answers[..used - 1])
  {
    hide UpToEnd, Observed, BytesOf;
    NothingObserved();
    client, used := [], 0;
    var writes := 0;
    assert answers[..0] == [];
    EndsOnce(answers, 0);
    while true
      invariant used < |answers|
      invariant client == Observed(answers[..used])
      decreases |answers| - used
    {
      var r := answers[used];
      ObservedAppend(answers[..used], r);
      EndsOnce(answers, used);
      assert answers[..used] + [r] == answers[..used + 1];
      used := used + 1;
      match r
      case Chunk(b) =>
        NoBytes(b);
        if |b| > 0 {
          if writes == patience {
            return client, ClientGone, used;
          }
          writes := writes + 1;
          client := client + BytesOf(b);
        }
      case Flushed =>
        client := client + [Mark];
      case Ended(problem) =>
        assert answers[..used] == answers;
        return client, if problem == DownstreamPanic then Aborted else Completed, used;
    }
  }

  /** A reported problem other than EOF has its cause. */
  ghost predicate Caused(c: Config, s: State, r: Read) {
    && (r == Ended(ContextError) ==> c.detached)
    && (r == Ended(ClosedPipe) ==> s.done)
    && (r == Ended(DownstreamPanic) ==> s.panicked.AfterCommit?)
  }

  ghost predicate Explained(c: Config, s: State) {
    forall r :: r in s.answers ==> Caused(c, s, r)
  }

  lemma NextKeepsExplained(c: Config, s: State, step: Step)
    requires Inv(c, s) && Explained(c, s) && Can(c, s, step)
    ensures Explained(c, Next(c, s, step))
  {
    if step.ReadFlush? {
      ReadKeepsExplained(c, s, step.size, step.arm);
    } else {
      OthersLeaveReads(c, s, step);
      OthersKeepCauses(c, s, step);
    }
  }

  lemma ReadKeepsExplained(c: Config, s: State, size: nat, arm: Arm)
    requires EndInv(c, s) && Explained(c, s) && Can(c, s, ReadFlush(size, arm))
    ensures Explained(c, ReadOnce(c, s, size, arm))
  {
    hide ReadOnce, EndInv, Explained, Caused;
    var r := ReadIsCaused(c, s, size, arm);
    ExplainedMore(c, s, ReadOnce(c, s, size, arm), r);
  }

  lemma ReadIsCaused(c: Config, s: State, size: nat, arm: Arm) returns (r: Read)
    requires EndInv(c, s) && Can(c, s, ReadFlush(size, arm))
    ensures
      var s' := ReadOnce(c, s, size, arm);
      s'.answers == s.answers + [r] && Caused(c, s', r) && s'.done == s.done && s'.panicked == s.panicked
  {
    var s' := ReadOnce(c, s, size, arm);
    r := s'.answers[|s.answers|];
  }

  lemma ExplainedMore(c: Config, s: State, s': State, r: Read)
    requires Explained(c, s) && s'.answers == s.answers + [r] && Caused(c, s', r)
    requires s'.done == s.done && s'.panicked == s.panicked
    ensures Explained(c, s')
  {
  }

  lemma OthersKeepCauses(c: Config, s: State, step: Step)
    requires EndInv(c, s) && Can(c, s, step) && !step.ReadFlush?
    ensures s.done ==> Next(c, s, step).done
    ensures s.panicked.AfterCommit? ==> Next(c, s, step).panicked.AfterCommit?
  {
    match step
    case Unwind =>
    case Start =>
    case _ =>
  }

  lemma {:induction false} RunKeepsExplained(c: Config, s: State, steps: seq<Step>)
    requires Inv(c, s) && Explained(c, s) && Admits(c, s, steps)
    ensures Explained(c, Run(c, s, steps))
    decreases |steps|
  {
    if steps != [] {
      NextKeepsInv(c, s, steps[0]);
      NextKeepsExplained(c, s, steps[0]);
      RunKeepsExplained(c, Next(c, s, steps[0]), steps[1..]);
    }
  }

  /**
   What the client of a middleware's response gets. When writeResponse's loop ends by itself,
   on a pipe nobody has closed, either it aborts the connection because the application
   panicked mid-body, or the client has everything the application wrote, flushed in the same
   places, and the application returned.
   */
  lemma ResponseIsWholeOrAborted(c: Config, steps: seq<Step>)
    requires Admits(c, Initial(), steps) && !c.detached
    requires UpToEnd(Run(c, Initial(), steps).answers) && !Run(c, Initial(), steps).done
    ensures
      var s := Run(c, Initial(), steps);
      if s.answers[|s.answers| - 1] == Ended(DownstreamPanic) then s.panicked.AfterCommit?
      else Observed(s.answers) == Items(s.issued) && s.panicked.NoPanic? && !s.lost
  {
    RunKeepsInv(c, Initial(), steps);
    RunKeepsExplained(c, Initial(), steps);
    var s := Run(c, Initial(), steps);
    var last := s.answers[|s.answers| - 1];
    assert last in s.answers;
    if last != Ended(DownstreamPanic) {
      assert last.problem == EOF;
      assert SawEOF(s.answers) && !Failed(s.answers);
      EOFMeansComplete(c, steps);
    }
  }
}
