/**
  The connection of a coffee maker as a state machine (src/jutta_bt_proto/CoffeeMaker.cpp,
  src/bt/BLEDevice.cpp): one thread at a time is inside connect, disconnect or the callback for a
  lost link, and the heartbeat thread runs beside it.
 */
module Session {
  import opened Basics
  import opened Cipher
  import opened Frames

  datatype MakerState = Disconnected | Connecting | Connected | Disconnecting

  /** Where a call is; between calls it is Idle. */
  datatype CallPc =
    | Idle
    | Entered                        // connect: before CONNECTING is set
    | Linking                        // BLEDevice::connect waits for GATT
    | LinkFailed
    | OnConnected(manData: seq<Byte>)
    | Greeting                       // the manufacturer data is parsed
    | Spawning
    | Established
    | Dropped                        // BLEDevice::on_disconnected has marked the link as lost
    | Closing                        // disconnect: before its guard
    | Leaving                        // DISCONNECTING is set
    | Joining
    | Aborted                        // a failed assertion, or the program ended
    | Undefined                      // a read beyond the manufacturer data: anything may happen

  /** Where the heartbeat thread is. */
  datatype BeatPc = Guard | Sending | Requesting | Sleeping | Exited

  datatype SentFrame = SentFrame(data: seq<Byte>, overrideKey: bool, key: Byte, bytes: seq<Byte>)

  datatype State = State(
    state: MakerState,
    linkUp: bool,
    thread: Option<BeatPc>,
    key: Byte,
    call: CallPc,
    // history
    manData: seq<Byte>,          // of the last link
    events: seq<MakerState>,     // what the state event handler was called with
    frames: seq<SentFrame>,      // what GATT accepted
    spawned: nat,
    joined: nat
  )

  datatype Step =
    | CallConnect | CallDisconnect | RemoteDrop
    | Send(data: seq<Byte>, overrideKey: bool, accepted: bool)
    | GattFails | GattLinks(manData: seq<Byte>)
    | Continue(accepted: bool)
    | Beat(accepted: bool)

  const STAY_IN_BLE: seq<Byte> := [0x00, 0x7F, 0x80]
  const DISCONNECT: seq<Byte> := [0x00, 0x7F, 0x81]

  function Init(): State {
    State(Disconnected, false, None, 0, Idle, [], [], [], 0, 0)
  }

  // ----- the pieces of the calls -----

  function SetState(s: State, state: MakerState): State {
    if state != s.state then s.(state := state, events := s.events + [state]) else s
  }

  /** An encoded write: nothing is sent while the link is down or when GATT refuses. */
  function Write(s: State, data: seq<Byte>, overrideKey: bool, accepted: bool): State
    requires data != []
  {
    if s.linkUp && accepted then
      s.(frames := s.frames + [SentFrame(data, overrideKey, s.key, Frame(data, s.key, overrideKey))])
    else s
  }

  predicate Live(state: MakerState) {
    state == Connecting || state == Connected
  }

  /** Manufacturer data that parse_man_data can take: 16 bytes, and an article number with a known machine. */
  predicate Usable(manData: seq<Byte>, articles: set<int>) {
    |manData| >= 16 && ArticleNumber(manData) in articles
  }

  function ArticleNumber(manData: seq<Byte>): int
    requires |manData| >= 16
  {
    var low: int, high: int := manData[4], manData[5];
    256 * high + low
  }

  /** Where manufacturer data that cannot be used leads: beyond its end, or to a failed assertion or an exit. */
  function BadDataEnd(manData: seq<Byte>): CallPc {
    if 0 < |manData| < 16 then Undefined else Aborted
  }

  predicate Over(call: CallPc) {
    call == Aborted || call == Undefined
  }

  /** The guard of disconnect. */
  function Close(s: State): State {
    if Live(s.state) then SetState(s, Disconnecting).(call := Leaving) else s.(call := Idle)
  }

  function Proceed(s: State, accepted: bool, articles: set<int>): State
    requires CanProceed(s)
  {
    match s.call
    case Entered => SetState(s, Connecting).(call := Linking)
    case LinkFailed => SetState(s, Disconnected).(call := Idle)
    case OnConnected(manData) =>
      if manData == [] then s.(call := Closing)
      else if Usable(manData, articles) then s.(key := manData[0], call := Greeting)
      else s.(call := BadDataEnd(manData))
    case Greeting => Write(s, STAY_IN_BLE, false, accepted).(call := Spawning)
    case Spawning =>
      if s.thread.Some? then s.(call := Aborted)
      else s.(thread := Some(Guard), spawned := s.spawned + 1, call := Established)
    case Established => SetState(s, Connected).(call := Idle)
    case Dropped => Close(s)
    case Closing => Close(s)
    case Leaving => Write(s, DISCONNECT, false, accepted).(call := Joining)
    case Joining =>
      if s.thread.None? then s.(call := Aborted)
      else SetState(s.(thread := None, joined := s.joined + 1), Disconnected).(call := Idle)
    case _ => s
  }

  /** The thread in a call can go on, unless it waits for GATT or for the heartbeat thread. */
  predicate CanProceed(s: State) {
    s.call != Idle && !Over(s.call) && s.call != Linking && (s.call == Joining ==> s.thread.None? || s.thread == Some(Exited))
  }

  function HeartBeat(s: State, accepted: bool): State
    requires s.thread.Some?
  {
    match s.thread.value
    case Guard => s.(thread := Some(if Live(s.state) then Sending else Exited))
    case Sending => Write(s, STAY_IN_BLE, false, accepted).(thread := Some(Requesting))
    case Requesting => s.(thread := Some(Sleeping))
    case Sleeping => s.(thread := Some(Guard))
    case Exited => s
  }

  // ----- the machine -----

  predicate Enabled(s: State, step: Step) {
    match step
    case CallConnect => s.call == Idle && !s.linkUp
    case CallDisconnect => s.call == Idle
    case RemoteDrop => s.call == Idle && s.linkUp
    case Send(data, _, _) => s.call == Idle && data != []
    case GattFails => s.call == Linking
    case GattLinks(_) => s.call == Linking
    case Continue(_) => CanProceed(s)
    case Beat(_) => !Over(s.call) && s.thread.Some? && s.thread.value != Exited
  }

  function Apply(s: State, step: Step, articles: set<int>): State
    requires Enabled(s, step)
  {
    match step
    case CallConnect => s.(call := Entered)
    case CallDisconnect => s.(call := Closing)
    case RemoteDrop => s.(linkUp := false, call := Dropped)
    case Send(data, overrideKey, accepted) => Write(s, data, overrideKey, accepted)
    case GattFails => s.(call := LinkFailed)
    case GattLinks(manData) => s.(linkUp := true, manData := manData, call := OnConnected(manData))
    case Continue(accepted) => Proceed(s, accepted, articles)
    case Beat(accepted) => HeartBeat(s, accepted)
  }

  predicate IsRun(s: State, steps: seq<Step>, articles: set<int>)
    decreases |steps|
  {
    steps == [] || (Enabled(s, steps[0]) && IsRun(Apply(s, steps[0], articles), steps[1..], articles))
  }

  function Run(s: State, steps: seq<Step>, articles: set<int>): State
    requires IsRun(s, steps, articles)
    decreases |steps|
  {
    if steps == [] then s else Run(Apply(s, steps[0], articles), steps[1..], articles)
  }

  /** Every link that came up delivered usable manufacturer data. */
  predicate Assumed(steps: seq<Step>, articles: set<int>) {
    forall i :: 0 <= i < |steps| && steps[i].GattLinks? ==> Usable(steps[i].manData, articles)
  }

  // ----- the invariant -----

  /** What holds in each part of a call. */
  predicate Fits(s: State, articles: set<int>) {
    match s.call
    case Idle => (s.state == Disconnected && s.thread.None?) || (s.state == Connected && s.thread.Some? && s.linkUp)
    case Entered => s.state == Disconnected && s.thread.None? && !s.linkUp
    case Linking => s.state == Connecting && s.thread.None? && !s.linkUp
    case LinkFailed => s.state == Connecting && s.thread.None? && !s.linkUp
    case OnConnected(manData) => s.state == Connecting && s.thread.None? && s.linkUp && manData == s.manData && Usable(manData, articles)
    case Greeting => s.state == Connecting && s.thread.None? && s.linkUp
    case Spawning => s.state == Connecting && s.thread.None? && s.linkUp
    case Established => s.state == Connecting && s.thread.Some? && s.linkUp
    case Dropped => (s.state == Disconnected && s.thread.None?) || (s.state == Connected && s.thread.Some?)
    case Closing => (s.state == Disconnected && s.thread.None?) || (s.state == Connected && s.thread.Some?)
    case Leaving => s.state == Disconnecting && s.thread.Some?
    case Joining => s.state == Disconnecting && s.thread.Some?
    case Aborted => false
    case Undefined => false
  }

  /** The heartbeat loop only ends when the session does. */
  predicate Beating(s: State) {
    && (s.thread == Some(Exited) ==> s.state == Disconnecting)
    && s.spawned == s.joined + (if s.thread.Some? then 1 else 0)
  }

  predicate Edge(before: MakerState, after: MakerState) {
    match before
    case Disconnected => after == Connecting
    case Connecting => after == Connected || after == Disconnected
    case Connected => after == Disconnecting
    case Disconnecting => after == Disconnected
  }

  /** The events follow the life cycle of a connection, and the last one is the current state. */
  predicate LifeCycle(s: State) {
    var path := [Disconnected] + s.events;
    path[|path| - 1] == s.state && forall i :: 0 <= i < |path| - 1 ==> Edge(path[i], path[i + 1])
  }

  /** The key is that of the current link once it is parsed, and every frame sent carries the key it was sent with. */
  predicate Keys(s: State) {
    && (s.linkUp && !s.call.OnConnected? ==> s.manData != [] && s.key == s.manData[0])
    && (s.thread.Some? ==> s.manData != [] && s.key == s.manData[0])
    && forall i :: 0 <= i < |s.frames| ==> s.frames[i].data != [] && s.frames[i].bytes == Frame(s.frames[i].data, s.frames[i].key, s.frames[i].overrideKey)
  }

  predicate Inv(s: State, articles: set<int>) {
    Fits(s, articles) && Beating(s) && LifeCycle(s) && Keys(s)
  }

  lemma KeepsFits(s: State, step: Step, articles: set<int>)
    requires Fits(s, articles) && Enabled(s, step) && (step.GattLinks? ==> Usable(step.manData, articles))
    ensures Fits(Apply(s, step, articles), articles)
  {
    hide ArticleNumber, Frame;
  }

  lemma KeepsBeating(s: State, step: Step, articles: set<int>)
    requires Fits(s, articles) && Beating(s) && Enabled(s, step)
    ensures Beating(Apply(s, step, articles))
  {
    hide Usable;
  }

  lemma KeepsLifeCycle(s: State, step: Step, articles: set<int>)
    requires Fits(s, articles) && Beating(s) && LifeCycle(s) && Enabled(s, step)
    ensures LifeCycle(Apply(s, step, articles))
  {
    var t := Apply(s, step, articles);
    assert t.events == s.events || (t.events == s.events + [t.state] && Edge(s.state, t.state)) by {
      hide LifeCycle, Usable;
    }
    hide Apply, Fits, Enabled;
    assert t.events == s.events ==> t.state == s.state;
    assert [Disconnected] + (s.events + [t.state]) == [Disconnected] + s.events + [t.state];
  }

  lemma KeepsKeys(s: State, step: Step, articles: set<int>)
    requires Fits(s, articles) && Keys(s) && Enabled(s, step) && (step.GattLinks? ==> Usable(step.manData, articles))
    ensures Keys(Apply(s, step, articles))
  {
    hide Frame;
  }

  /** Every step keeps the invariant, as long as new links deliver usable manufacturer data. */
  lemma StepKeepsInv(s: State, step: Step, articles: set<int>)
    requires Inv(s, articles) && Enabled(s, step) && (step.GattLinks? ==> Usable(step.manData, articles))
    ensures Inv(Apply(s, step, articles), articles)
  {
    hide Fits, Beating, LifeCycle, Keys, Apply, Enabled, Usable;
    KeepsFits(s, step, articles);
    KeepsBeating(s, step, articles);
    KeepsLifeCycle(s, step, articles);
    KeepsKeys(s, step, articles);
  }

  lemma {:induction false} RunKeepsInv(s: State, steps: seq<Step>, articles: set<int>)
    requires Inv(s, articles) && IsRun(s, steps, articles) && Assumed(steps, articles)
    ensures Inv(Run(s, steps, articles), articles)
    decreases |steps|
  {
    hide Inv, Apply, Enabled, Usable;
    if steps != [] {
      assert steps[0].GattLinks? ==> Usable(steps[0].manData, articles);
      StepKeepsInv(s, steps[0], articles);
      assert forall i :: 0 <= i < |steps[1..]| ==> steps[1..][i] == steps[i + 1];
      RunKeepsInv(Apply(s, steps[0], articles), steps[1..], articles);
    }
  }

  lemma Reachable(steps: seq<Step>, articles: set<int>)
    requires IsRun(Init(), steps, articles) && Assumed(steps, articles)
    ensures Inv(Run(Init(), steps, articles), articles)
  {
    RunKeepsInv(Init(), steps, articles);
  }

  // ----- safety over whole runs -----

  /**
    In every run and every interleaving: no assertion fails and nothing undefined is done; between calls there is a heartbeat
    thread exactly while the state is CONNECTED, and then the link is up; and a thread that was
    spawned is joined once, or still running.
   */
  lemma SessionSafety(steps: seq<Step>, articles: set<int>)
    requires IsRun(Init(), steps, articles) && Assumed(steps, articles)
    ensures var s := Run(Init(), steps, articles);
      && !Over(s.call)
      && (s.call == Idle ==> (s.thread.Some? <==> s.state == Connected) && (s.state == Connected ==> s.linkUp) && s.state in {Connected, Disconnected})
      && s.spawned == s.joined + (if s.thread.Some? then 1 else 0)
      && (s.call == Joining ==> s.state == Disconnecting && s.thread.Some?)
  {
    Reachable(steps, articles);
  }

  /** The event log is a walk through the life cycle, so no state is reported twice in a row. */
  lemma EventsAreALifeCycle(steps: seq<Step>, articles: set<int>)
    requires IsRun(Init(), steps, articles) && Assumed(steps, articles)
    ensures var path := [Disconnected] + Run(Init(), steps, articles).events;
      && path[|path| - 1] == Run(Init(), steps, articles).state
      && forall i :: 0 <= i < |path| - 1 ==> Edge(path[i], path[i + 1]) && path[i] != path[i + 1]
  {
    Reachable(steps, articles);
  }

  /**
    Every frame that was sent decodes, with the key it was sent with, to the data with that key in
    its place. While there is a session that key is the first byte of its manufacturer data.
   */
  lemma FramesDecode(steps: seq<Step>, articles: set<int>)
    requires IsRun(Init(), steps, articles) && Assumed(steps, articles)
    ensures var s := Run(Init(), steps, articles);
      && (s.state == Connected ==> s.manData != [] && s.key == s.manData[0])
      && forall i :: 0 <= i < |s.frames| ==>
           var f := s.frames[i];
           f.data != [] && Crypt(f.bytes, f.key) == Keyed(f.data, f.key, f.overrideKey) && Crypt(f.bytes, f.key)[0] == f.key
  {
    hide Crypt, Frame, Keyed;
    Reachable(steps, articles);
    var s := Run(Init(), steps, articles);
    forall i | 0 <= i < |s.frames|
      ensures var f := s.frames[i];
        f.data != [] && Crypt(f.bytes, f.key) == Keyed(f.data, f.key, f.overrideKey) && Crypt(f.bytes, f.key)[0] == f.key
    {
      FrameDecodes(s.frames[i].data, s.frames[i].key, s.frames[i].overrideKey);
    }
  }

  /** A step sends at most one frame, under the current key, and only while the link is up. */
  lemma SendsOnlyOverTheLink(s: State, step: Step, articles: set<int>)
    requires Enabled(s, step)
    ensures var t := Apply(s, step, articles);
      t.frames == s.frames || (s.linkUp && |t.frames| == |s.frames| + 1 && t.frames[..|s.frames|] == s.frames && t.frames[|s.frames|].key == s.key)
  {
    hide Frame;
  }

  // ----- what is sent -----

  /** The log has one more frame, and this one decodes with the key to these bytes. */
  predicate Sent(before: seq<SentFrame>, after: seq<SentFrame>, key: Byte, plain: seq<Byte>) {
    && |after| == |before| + 1 && after[..|before|] == before
    && after[|before|].key == key && Crypt(after[|before|].bytes, key) == plain
  }

  /** The two commands of a session arrive with the key in front, as long as there is a link and GATT accepts them. */
  lemma CommandsArrive(s: State, accepted: bool)
    ensures s.linkUp && accepted ==> Sent(s.frames, Write(s, STAY_IN_BLE, false, accepted).frames, s.key, [s.key, 0x7F, 0x80])
    ensures s.linkUp && accepted ==> Sent(s.frames, Write(s, DISCONNECT, false, accepted).frames, s.key, [s.key, 0x7F, 0x81])
    ensures !(s.linkUp && accepted) ==> Write(s, STAY_IN_BLE, false, accepted) == s == Write(s, DISCONNECT, false, accepted)
  {
    FrameDecodes(STAY_IN_BLE, s.key, false);
    FrameDecodes(DISCONNECT, s.key, false);
    assert Keyed(STAY_IN_BLE, s.key, false) == [s.key, 0x7F, 0x80];
    assert Keyed(DISCONNECT, s.key, false) == [s.key, 0x7F, 0x81];
    hide Crypt, Frame, Keyed;
  }

  /** When its turn has come the heartbeat thread sends a heartbeat, and with a link and an accepting GATT it arrives. */
  lemma HeartbeatSends(s: State, accepted: bool, articles: set<int>)
    requires s.thread == Some(Sending) && !Over(s.call)
    ensures Enabled(s, Beat(accepted))
    ensures var t := Apply(s, Beat(accepted), articles);
      && t.thread == Some(Requesting)
      && if s.linkUp && accepted then Sent(s.frames, t.frames, s.key, [s.key, 0x7F, 0x80]) else t.frames == s.frames
  {
    hide Crypt, Frame, Sent;
    CommandsArrive(s, accepted);
  }

  /** As long as the session lives the thread comes back to sending after four steps, and sends nothing else in between. */
  lemma HeartbeatGoesOn(s: State, accepted: bool, articles: set<int>)
    requires s.thread == Some(Requesting) && Live(s.state) && !Over(s.call)
    ensures var steps := [Beat(accepted), Beat(accepted), Beat(accepted)];
      IsRun(s, steps, articles) && Run(s, steps, articles) == s.(thread := Some(Sending))
  {
    var beat := Beat(accepted);
    var s1 := Apply(s, beat, articles);
    var s2 := Apply(s1, beat, articles);
    assert Apply(s2, beat, articles) == s.(thread := Some(Sending));
    StartRun(s2, beat, articles);
    assert [beat, beat][1..] == [beat] && [beat, beat, beat][1..] == [beat, beat];
    assert IsRun(s1, [beat, beat], articles);
  }

  /** An article number is read with its low byte first. */
  lemma ArticleNumberMeaning(manData: seq<Byte>, n: int, articles: set<int>)
    requires 0 <= n < 65536
    ensures |manData| >= 16 && manData[4] == n % 256 && manData[5] == n / 256 ==> ArticleNumber(manData) == n && (Usable(manData, articles) <==> n in articles)
    ensures |manData| < 16 ==> !Usable(manData, articles)
  {}

  // ----- the join ends -----

  /** How many steps the heartbeat thread still takes once its loop guard is false. */
  function BeatsLeft(thread: Option<BeatPc>): nat {
    match thread
    case None => 0
    case Some(pc) => match pc case Sending => 4 case Requesting => 3 case Sleeping => 2 case Guard => 1 case Exited => 0
  }

  /**
    While a call waits in join, the heartbeat thread can move until it has exited, each of its
    steps brings it closer to that, nothing else happens meanwhile, and then join returns.
   */
  lemma JoinEnds(steps: seq<Step>, articles: set<int>, next: Step)
    requires IsRun(Init(), steps, articles) && Assumed(steps, articles)
    requires Run(Init(), steps, articles).call == Joining
    ensures var s := Run(Init(), steps, articles);
      && (BeatsLeft(s.thread) > 0 ==> Enabled(s, Beat(false)))
      && (BeatsLeft(s.thread) == 0 ==> Enabled(s, Continue(false)))
      && (Enabled(s, next) ==>
            var t := Apply(s, next, articles);
            if next.Beat? then t.call == Joining && t.state == Disconnecting && BeatsLeft(t.thread) < BeatsLeft(s.thread)
            else BeatsLeft(s.thread) == 0 && t.call == Idle && t.state == Disconnected && t.thread.None?)
  {
    Reachable(steps, articles);
  }

  // ----- when the assertion about the heartbeat thread fails -----

  lemma {:induction false} RunSnoc(s: State, steps: seq<Step>, step: Step, articles: set<int>)
    requires IsRun(s, steps, articles) && Enabled(Run(s, steps, articles), step)
    ensures IsRun(s, steps + [step], articles)
    ensures Run(s, steps + [step], articles) == Apply(Run(s, steps, articles), step, articles)
    decreases |steps|
  {
    hide Apply, Enabled;
    if steps == [] {
      assert [] + [step] == [step] && [step][1..] == [];
    } else {
      assert (steps + [step])[1..] == steps[1..] + [step];
      RunSnoc(Apply(s, steps[0], articles), steps[1..], step, articles);
    }
  }

  /** What is left of a connection attempt when the manufacturer data cannot be used. */
  function FailingSteps(manData: seq<Byte>, accepted: bool): seq<Step> {
    var go := Continue(accepted);
    if manData == [] then [GattLinks(manData)] + [go] + [go] + [go] + [go] else [GattLinks(manData)] + [go]
  }

  /**
    A link without usable manufacturer data: with none at all, disconnect is entered before the
    heartbeat thread exists and its assertion fails; an unknown article number ends the program; and
    data that is too short is read beyond its end. This can happen after every run in which a call
    waits for GATT.
   */
  lemma UnusableDataFails(steps: seq<Step>, articles: set<int>, manData: seq<Byte>, accepted: bool)
    requires IsRun(Init(), steps, articles) && Assumed(steps, articles)
    requires Run(Init(), steps, articles).call == Linking && !Usable(manData, articles)
    ensures var s := Run(Init(), steps, articles);
      && IsRun(s, FailingSteps(manData, accepted), articles)
      && Run(s, FailingSteps(manData, accepted), articles).call == BadDataEnd(manData)
    ensures BadDataEnd(manData) == if manData == [] || |manData| >= 16 then Aborted else Undefined
  {
    hide Usable, IsRun, Run, Frame;
    Reachable(steps, articles);
    var s := Run(Init(), steps, articles);
    var go := Continue(accepted);
    var linked := Apply(s, GattLinks(manData), articles);
    assert Enabled(linked, go) && linked.thread.None?;
    StartRun(s, GattLinks(manData), articles);
    RunSnoc(s, [GattLinks(manData)], go, articles);
    if manData == [] {
      var first := [GattLinks(manData)] + [go];
      assert Run(s, first, articles).call == Closing;
      RunSnoc(s, first, go, articles);
      RunSnoc(s, first + [go], go, articles);
      RunSnoc(s, first + [go] + [go], go, articles);
    }
  }

  /** The states between a link without usable manufacturer data and where it leads. */
  predicate Doomed(s: State, articles: set<int>) {
    && s.thread.None? && s.state != Connected
    && match s.call
       case OnConnected(manData) => s.state == Connecting && manData == s.manData && !Usable(manData, articles)
       case Closing => s.state == Connecting && s.manData == []
       case Leaving => s.state == Disconnecting && s.manData == []
       case Joining => s.state == Disconnecting && s.manData == []
       case _ => s.call == BadDataEnd(s.manData)
  }

  /** How many steps are left at most until then. */
  function StepsToEnd(call: CallPc): nat {
    match call
    case OnConnected(_) => 4
    case Closing => 3
    case Leaving => 2
    case Joining => 1
    case _ => 0
  }

  lemma DoomedStep(s: State, step: Step, articles: set<int>)
    requires Doomed(s, articles) && Enabled(s, step)
    ensures Doomed(Apply(s, step, articles), articles)
    ensures StepsToEnd(Apply(s, step, articles).call) < StepsToEnd(s.call) && Apply(s, step, articles).manData == s.manData
  {
    hide Usable, Frame;
  }

  lemma {:induction false} DoomedRun(s: State, later: seq<Step>, articles: set<int>)
    requires Doomed(s, articles) && IsRun(s, later, articles)
    ensures Doomed(Run(s, later, articles), articles)
    ensures |later| + StepsToEnd(Run(s, later, articles).call) <= StepsToEnd(s.call) && Run(s, later, articles).manData == s.manData
    decreases |later|
  {
    hide Doomed, Apply, Enabled;
    if later != [] {
      DoomedStep(s, later[0], articles);
      DoomedRun(Apply(s, later[0], articles), later[1..], articles);
    }
  }

  /**
    Nothing else can come of it: whatever happens after such a link, within four steps it has led
    there, until then it can go on, and it never comes back to the caller or to CONNECTED. Without
    any data, or with enough data and an unknown article number, the program has then ended.
   */
  lemma UnusableDataAlwaysFails(steps: seq<Step>, articles: set<int>, manData: seq<Byte>, later: seq<Step>)
    requires IsRun(Init(), steps, articles) && Assumed(steps, articles)
    requires Run(Init(), steps, articles).call == Linking && !Usable(manData, articles)
    requires IsRun(Apply(Run(Init(), steps, articles), GattLinks(manData), articles), later, articles)
    ensures var t := Run(Apply(Run(Init(), steps, articles), GattLinks(manData), articles), later, articles);
      && |later| <= 4 && (|later| == 4 ==> Over(t.call))
      && t.call != Idle && t.state != Connected && t.thread.None?
      && (Over(t.call) ==> t.call == BadDataEnd(manData) && forall step :: !Enabled(t, step))
      && (!Over(t.call) ==> Enabled(t, Continue(false)))
  {
    hide Usable, IsRun, Run, Frame;
    Reachable(steps, articles);
    DoomedRun(Apply(Run(Init(), steps, articles), GattLinks(manData), articles), later, articles);
  }

  lemma StartRun(s: State, step: Step, articles: set<int>)
    requires Enabled(s, step)
    ensures IsRun(s, [step], articles) && Run(s, [step], articles) == Apply(s, step, articles)
  {
    hide Apply, Enabled;
    assert [step][1..] == [];
  }

  lemma {:induction false} RunAppend(s: State, first: seq<Step>, second: seq<Step>, articles: set<int>)
    requires IsRun(s, first, articles) && IsRun(Run(s, first, articles), second, articles)
    ensures IsRun(s, first + second, articles)
    ensures Run(s, first + second, articles) == Run(Run(s, first, articles), second, articles)
    decreases |first|
  {
    hide Apply, Enabled;
    if first == [] {
      assert [] + second == second;
    } else {
      assert (first + second)[1..] == first[1..] + second;
      RunAppend(Apply(s, first[0], articles), first[1..], second, articles);
    }
  }
}
