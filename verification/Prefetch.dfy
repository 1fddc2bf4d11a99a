/**
  The handshake between the line reader and the worker thread that reads ahead
  (AsynchronousReader in src/include/io/csv.hpp), as a state machine.

  A step of the machine is one critical section of one thread. The worker keeps the lock while it
  reads, so a read has a beginning and an end. A thread that waits on a condition variable sleeps
  until it is notified; it may also wake up for no reason.
 */
module Prefetch {
  import opened Basics

  datatype MainPc =
    | Running             // in the line reader's own code
    | Starting(count: nat)
    | Finishing           // wants the lock to look at the result
    | FinishAsleep        // waits for read_finished_condition
    | Terminating | Notifying | Joining  // the three parts of the destructor
    | Gone

  datatype WorkerPc = Checking | Asleep | Reading | Exited

  datatype State = State(
    main: MainPc,
    worker: WorkerPc,
    desired: Option<nat>,      // desired_byte_count, None for -1
    readCount: Option<nat>,    // read_byte_count, None for -1
    readError: bool,
    terminate: bool,
    source: string,            // what the byte source has not delivered yet
    // history
    requests: seq<nat>,
    served: seq<string>,
    results: seq<Option<nat>>, // what finish_read answered; None when it threw
    outstanding: bool,         // a read was started and not finished
    ended: bool                // finish_read answered 0
  )

  datatype Step =
    | CallStart(count: nat) | DoStart
    | CallFinish | DoFinish
    | CallDestroy | DoTerminate | DoNotify | DoJoin
    | Check | EndRead | FailRead
    | SpuriousMain | SpuriousWorker

  function Init(input: string): State {
    State(Running, Checking, None, None, false, false, input, [], [], [], false, false)
  }

  /** The worker holds the lock exactly while it reads. */
  predicate Locked(s: State) {
    s.worker == Reading
  }

  /**
    When a thread can take a step. The first three lines are the protocol the line reader keeps;
    after a read that failed, any call is allowed.
   */
  predicate Enabled(s: State, step: Step) {
    match step
    case CallStart(_) => s.main == Running && !s.outstanding
    case CallFinish => s.main == Running && (s.readError || (s.outstanding && !s.ended))
    case CallDestroy => s.main == Running
    case DoStart => s.main.Starting? && !Locked(s)
    case DoFinish => s.main == Finishing && !Locked(s)
    case DoTerminate => s.main == Terminating && !Locked(s)
    case DoNotify => s.main == Notifying
    case DoJoin => s.main == Joining && s.worker == Exited
    case Check => s.worker == Checking
    case EndRead => s.worker == Reading && s.desired.Some?
    case FailRead => s.worker == Reading
    case SpuriousMain => s.main == FinishAsleep
    case SpuriousWorker => s.worker == Asleep
  }

  function WakeWorker(w: WorkerPc): WorkerPc {
    if w == Asleep then Checking else w
  }

  function WakeMain(m: MainPc): MainPc {
    if m == FinishAsleep then Finishing else m
  }

  function Apply(s: State, step: Step): State
    requires Enabled(s, step)
  {
    match step
    case CallStart(count) => s.(main := Starting(count))
    case CallFinish => s.(main := Finishing)
    case CallDestroy => s.(main := Terminating)
    case DoStart =>
      s.(main := Running, worker := WakeWorker(s.worker), desired := Some(s.main.count), readCount := None,
         requests := s.requests + [s.main.count], outstanding := true)
    case DoFinish =>
      if s.readError || s.readCount.Some? then
        var result := if s.readError then None else s.readCount;
        s.(main := Running, results := s.results + [result], outstanding := false,
           ended := s.ended || result == Some(0))
      else
        s.(main := FinishAsleep)
    case DoTerminate => s.(main := Notifying, terminate := true)
    case DoNotify => s.(main := Joining, worker := WakeWorker(s.worker))
    case DoJoin => s.(main := Gone)
    case Check =>
      s.(worker := if s.terminate then Exited else if s.desired.Some? then Reading else Asleep)
    case EndRead =>
      var chunk := Chunk(s.source, s.desired.value);
      s.(main := WakeMain(s.main), desired := None, readCount := Some(|chunk|),
         source := s.source[|chunk|..], served := s.served + [chunk],
         worker := if chunk == "" || s.terminate then Exited else Asleep)
    case FailRead => s.(main := WakeMain(s.main), readError := true, worker := Exited)
    case SpuriousMain => s.(main := Finishing)
    case SpuriousWorker => s.(worker := Checking)
  }

  predicate IsRun(s: State, steps: seq<Step>)
    decreases |steps|
  {
    steps == [] || (Enabled(s, steps[0]) && IsRun(Apply(s, steps[0]), steps[1..]))
  }

  function Run(s: State, steps: seq<Step>): State
    requires IsRun(s, steps)
    decreases |steps|
  {
    if steps == [] then s else Run(Apply(s, steps[0]), steps[1..])
  }

  // ----- what reading without threads would give -----

  function Chunk(source: string, count: nat): (chunk: string)
    ensures |chunk| == Min(count, |source|)
  {
    source[..Min(count, |source|)]
  }

  /** What the requests leave of the source when they are served one after the other. */
  function SyncRest(source: string, requests: seq<nat>): string
    decreases |requests|
  {
    if requests == [] then source
    else
      var before := SyncRest(source, requests[..|requests| - 1]);
      before[|Chunk(before, requests[|requests| - 1])|..]
  }

  /** What the last of the requests gets. */
  function SyncChunk(source: string, requests: seq<nat>): string
    requires requests != []
  {
    Chunk(SyncRest(source, requests[..|requests| - 1]), requests[|requests| - 1])
  }

  // ----- the invariant -----

  ghost predicate Served(input: string, s: State) {
    && |s.served| <= |s.requests|
    && s.source == SyncRest(input, s.requests[..|s.served|])
    && (forall k :: 0 <= k < |s.served| ==> s.served[k] == SyncChunk(input, s.requests[..k + 1]))
  }

  ghost predicate Answered(s: State) {
    && (forall k :: 0 <= k < |s.results| ==> s.results[k] == if k < |s.served| then Some(|s.served[k]|) else None)
    && |s.requests| <= |s.results| + (if s.outstanding then 1 else 0)
    && (!s.readError ==> |s.results| <= |s.served| && |s.requests| == |s.results| + (if s.outstanding then 1 else 0))
    && (s.ended <==> !s.readError && s.results != [] && s.served[|s.results| - 1] == "")
  }

  ghost predicate Requested(s: State) {
    && (s.desired.Some? ==>
          && s.outstanding && s.readCount.None? && |s.served| + 1 == |s.requests|
          && s.requests[|s.served|] == s.desired.value)
    && (s.desired.None? ==> |s.served| == |s.requests|)
    && (s.outstanding && s.desired.None? ==> s.served != [] && s.readCount == Some(|s.served[|s.served| - 1]|))
    && (s.worker == Exited && !s.terminate ==> s.served != [] && s.served[|s.served| - 1] == "")
    && (forall k :: 0 <= k < |s.served| && s.served[k] == "" ==> k == |s.served| - 1 && s.worker == Exited)
  }

  /** A read that failed is never served, and no read after it; none that was served before was empty. */
  ghost predicate Failed(s: State) {
    && s.worker == Exited && |s.served| < |s.requests| && |s.served| <= |s.results|
    && forall k :: 0 <= k < |s.served| ==> s.served[k] != ""
  }

  ghost predicate Handshake(s: State) {
    && (s.worker == Reading ==> s.desired.Some? && !s.terminate)
    && (s.worker == Asleep ==> s.desired.None? && (!s.terminate || s.main == Notifying))
    && (s.main in {Finishing, FinishAsleep} ==> s.readError || (s.outstanding && !s.ended))
    && (s.main.Starting? ==> !s.outstanding)
    && (s.main == FinishAsleep ==> s.readCount.None? && !s.readError)
    && (s.main in {Notifying, Joining, Gone} <==> s.terminate)
    && (s.main == Gone ==> s.worker == Exited)
  }

  ghost predicate Inv(input: string, s: State) {
    && Handshake(s) && Served(input, s) && Answered(s)
    && (if s.readError then Failed(s) else Requested(s))
  }

  lemma KeepsHandshake(s: State, step: Step)
    requires Handshake(s) && Answered(s) && (if s.readError then Failed(s) else Requested(s)) && Enabled(s, step)
    ensures Handshake(Apply(s, step))
  {}

  lemma KeepsServed(input: string, s: State, step: Step)
    requires Inv(input, s) && Enabled(s, step)
    ensures Served(input, Apply(s, step))
  {
    hide SyncRest, SyncChunk;
    if step == DoStart {
      var requests := s.requests + [s.main.count];
      assert forall n :: 0 <= n <= |s.served| ==> requests[..n] == s.requests[..n];
    } else if step == EndRead {
      ServeStep(input, s);
    }
  }

  lemma KeepsAnswered(input: string, s: State, step: Step)
    requires Inv(input, s) && Enabled(s, step)
    ensures Answered(Apply(s, step))
  {
    hide Served, Chunk;
  }

  lemma KeepsRequested(input: string, s: State, step: Step)
    requires Inv(input, s) && Enabled(s, step)
    ensures var t := Apply(s, step); if t.readError then Failed(t) else Requested(t)
  {
    hide Served;
  }

  lemma StepKeepsInv(input: string, s: State, step: Step)
    requires Inv(input, s) && Enabled(s, step)
    ensures Inv(input, Apply(s, step))
  {
    KeepsHandshake(s, step);
    KeepsServed(input, s, step);
    KeepsAnswered(input, s, step);
    KeepsRequested(input, s, step);
  }

  lemma ServeStep(input: string, s: State)
    requires Served(input, s) && s.desired.Some? && |s.requests| == |s.served| + 1
    requires s.desired.value == s.requests[|s.served|]
    ensures Chunk(s.source, s.desired.value) == SyncChunk(input, s.requests[..|s.served| + 1])
    ensures s.source[|Chunk(s.source, s.desired.value)|..] == SyncRest(input, s.requests[..|s.served| + 1])
  {
    var requests := s.requests[..|s.served| + 1];
    assert requests[..|requests| - 1] == s.requests[..|s.served|];
  }

  lemma {:induction false} RunKeepsInv(input: string, s: State, steps: seq<Step>)
    requires Inv(input, s) && IsRun(s, steps)
    ensures Inv(input, Run(s, steps))
    decreases |steps|
  {
    if steps != [] {
      StepKeepsInv(input, s, steps[0]);
      RunKeepsInv(input, Apply(s, steps[0]), steps[1..]);
    }
  }

  lemma InitInv(input: string)
    ensures Inv(input, Init(input))
  {}

  // ----- what every interleaving gives -----

  /**
    The threaded reader answers like the reader without threads: in every run, the requests are
    served in their order and at most once, the k-th answer of finish_read is the size of the k-th
    chunk of the input, and from a read that failed on, finish_read throws.
   */
  lemma AnswersLikeSynchronous(input: string, steps: seq<Step>)
    requires IsRun(Init(input), steps)
    ensures var s := Run(Init(input), steps);
      && |s.served| <= |s.requests| <= |s.results| + 1 && (!s.readError ==> |s.results| <= |s.served|)
      && (forall k :: 0 <= k < |s.served| ==> s.served[k] == SyncChunk(input, s.requests[..k + 1]))
      && (forall k :: 0 <= k < |s.results| ==>
            s.results[k] == if k < |s.served| then Some(|SyncChunk(input, s.requests[..k + 1])|) else None)
  {
    InitInv(input);
    RunKeepsInv(input, Init(input), steps);
  }

  function Joined(chunks: seq<string>): string {
    if chunks == [] then "" else Joined(chunks[..|chunks| - 1]) + chunks[|chunks| - 1]
  }

  lemma NothingLostByStep(s: State, step: Step)
    requires Enabled(s, step)
    ensures Joined(Apply(s, step).served) + Apply(s, step).source == Joined(s.served) + s.source
  {
    if step == EndRead {
      var t, chunk := Apply(s, EndRead), Chunk(s.source, s.desired.value);
      assert t.served[..|t.served| - 1] == s.served;
      assert Joined(t.served) == Joined(s.served) + chunk;
      assert s.source == chunk + t.source;
    }
  }

  lemma {:induction false} NothingLostFrom(s: State, steps: seq<Step>)
    requires IsRun(s, steps)
    ensures Joined(Run(s, steps).served) + Run(s, steps).source == Joined(s.served) + s.source
    decreases |steps|
  {
    hide Apply, Enabled, Joined;
    if steps != [] {
      NothingLostByStep(s, steps[0]);
      NothingLostFrom(Apply(s, steps[0]), steps[1..]);
    }
  }

  /** What was served, with what the source still holds behind it, is the input: nothing is lost, repeated or moved. */
  lemma NothingLost(input: string, steps: seq<Step>)
    requires IsRun(Init(input), steps)
    ensures Joined(Run(Init(input), steps).served) + Run(Init(input), steps).source == input
  {
    hide Run, Apply;
    NothingLostFrom(Init(input), steps);
    assert "" + input == input;
  }

  /** A read gets as much as it asked for, unless the source ends before. */
  lemma ChunkSize(source: string, count: nat)
    ensures Chunk(source, count) + source[|Chunk(source, count)|..] == source
    ensures |Chunk(source, count)| == count || (|Chunk(source, count)| < count && Chunk(source, count) == source)
  {}

  /** The worker writes into the third block only while a request is pending. */
  lemma WritesOnlyWhilePending(input: string, steps: seq<Step>)
    requires IsRun(Init(input), steps)
    ensures var s := Run(Init(input), steps);
      s.worker == Reading ==> s.outstanding && s.readCount.None? && s.main != Gone
  {
    InitInv(input);
    RunKeepsInv(input, Init(input), steps);
  }

  // ----- every call comes back -----

  predicate InCall(s: State) {
    s.main != Running && s.main != Gone
  }

  predicate Spurious(step: Step) {
    step == SpuriousMain || step == SpuriousWorker
  }

  /** A step that some thread can take while the main thread is inside a call. */
  function Progress(s: State): Step {
    if s.worker == Reading then EndRead
    else if s.worker == Checking then Check
    else match s.main
      case Starting(_) => DoStart
      case Finishing => DoFinish
      case Terminating => DoTerminate
      case Notifying => DoNotify
      case _ => DoJoin
  }

  /** In no reachable state is the main thread blocked in a call with no thread able to move. */
  lemma NoDeadlock(input: string, steps: seq<Step>)
    requires IsRun(Init(input), steps) && InCall(Run(Init(input), steps))
    ensures Enabled(Run(Init(input), steps), Progress(Run(Init(input), steps)))
  {
    InitInv(input);
    RunKeepsInv(input, Init(input), steps);
    var s := Run(Init(input), steps);
    assert s.main == FinishAsleep ==> s.worker != Exited && s.worker != Asleep;
  }

  /** How many steps a call still needs at most, when no thread wakes up for no reason. */
  function StepsLeft(s: State): nat {
    (match s.worker case Checking => 4 case Reading => 2 case _ => 0) +
    (match s.main
     case Starting(_) => 1 case Finishing => 2 case FinishAsleep => 1
     case Terminating => 8 case Notifying => 7 case Joining => 1
     case _ => 0)
  }

  /** Every step inside a call brings its end closer, or is its end. */
  lemma CallsEnd(s: State, step: Step)
    requires Enabled(s, step) && InCall(s) && !Spurious(step)
    ensures InCall(Apply(s, step)) ==> StepsLeft(Apply(s, step)) < StepsLeft(s)
  {}

  /** Steps without spurious wake-ups, taken while the main thread is inside one call. */
  predicate InsideCall(s: State, steps: seq<Step>)
    decreases |steps|
  {
    steps == [] ||
    (InCall(s) && Enabled(s, steps[0]) && !Spurious(steps[0]) && InsideCall(Apply(s, steps[0]), steps[1..]))
  }

  /** No schedule keeps a call going for longer than this. */
  lemma {:induction false} CallLength(s: State, steps: seq<Step>)
    requires InsideCall(s, steps)
    ensures |steps| <= StepsLeft(s) + 1
    decreases |steps|
  {
    hide Apply, Enabled, StepsLeft;
    if steps != [] {
      CallsEnd(s, steps[0]);
      CallLength(Apply(s, steps[0]), steps[1..]);
      if steps[1..] != [] {
        assert InCall(Apply(s, steps[0]));
      }
    }
  }

  // ----- why no result may be waited for after a result of 0 -----

  /** The main thread waits for a request that no worker is left to serve. */
  predicate Stuck(s: State) {
    && s.main in {Finishing, FinishAsleep} && s.worker == Exited
    && s.readCount.None? && !s.readError
  }

  lemma {:induction false} StuckForever(s: State, steps: seq<Step>)
    requires Stuck(s) && IsRun(s, steps)
    ensures Stuck(Run(s, steps))
    decreases |steps|
  {
    if steps != [] {
      StuckForever(Apply(s, steps[0]), steps[1..]);
    }
  }

  /**
    The protocol is needed: whatever the run so far, waiting again after an answer of 0 (without
    the guard `!ended`) leaves the main thread waiting forever. With the guard every call ends.
   */
  lemma WaitingAfterZeroNeverEnds(input: string, steps: seq<Step>, later: seq<Step>)
    requires IsRun(Init(input), steps)
    requires var s := Run(Init(input), steps);
      s.main == Running && s.outstanding && s.ended && IsRun(s.(main := Finishing), later)
    ensures Stuck(Run(Run(Init(input), steps).(main := Finishing), later))
  {
    InitInv(input);
    RunKeepsInv(input, Init(input), steps);
    var s := Run(Init(input), steps);
    StuckForever(s.(main := Finishing), later);
  }

  /** Waiting for a read is hopeless exactly if an answer was 0; after a read that failed it is not. */
  lemma StuckExactlyAfterZero(input: string, steps: seq<Step>)
    requires IsRun(Init(input), steps)
    requires Run(Init(input), steps).main == Running && Run(Init(input), steps).outstanding
    ensures var s := Run(Init(input), steps);
      && (Stuck(s.(main := Finishing)) <==> s.ended)
      && (s.ended <==> Some(0) in s.results)
  {
    InitInv(input);
    RunKeepsInv(input, Init(input), steps);
  }

  /** The situation exists: an empty source answers 0, and a read started after that is never served. */
  lemma ZeroAnswerIsReachable()
    ensures var steps := [CallStart(4), DoStart, Check, EndRead, CallFinish, DoFinish, CallStart(4), DoStart];
      IsRun(Init(""), steps) && var s := Run(Init(""), steps); s.main == Running && s.outstanding && s.ended
  {
    var s0 := Init("");
    var s1 := Apply(s0, CallStart(4));
    var s2 := Apply(s1, DoStart);
    var s3 := Apply(s2, Check);
    var s4 := Apply(s3, EndRead);
    var s5 := Apply(s4, CallFinish);
    var s6 := Apply(s5, DoFinish);
    var s7 := Apply(s6, CallStart(4));
    var s8 := Apply(s7, DoStart);
    assert s8.main == Running && s8.outstanding && s8.ended;
    hide Apply, Enabled;
    var last := [DoStart];
    assert last[1..] == [] && IsRun(s7, last) && Run(s7, last) == s8;
    UnfoldRun(s6, CallStart(4), last);
    UnfoldRun(s5, DoFinish, [CallStart(4)] + last);
  }

  lemma UnfoldRun(s: State, step: Step, rest: seq<Step>)
    requires Enabled(s, step) && IsRun(Apply(s, step), rest)
    ensures IsRun(s, [step] + rest) && Run(s, [step] + rest) == Run(Apply(s, step), rest)
  {}
}
