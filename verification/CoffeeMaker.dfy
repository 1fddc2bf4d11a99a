/**
  The session as the code has it, an object whose methods update its fields. What GATT answers is
  a parameter. Every method hands out the steps of the state machine that it took, so whatever
  holds in every run of the machine holds for the object.
 */
module CoffeeMakers {
  import opened Basics
  import opened Frames
  import opened Session
  import Cipher
  import Commands
  import Hex

  class CoffeeMaker {
    const articles: set<int>
    var state: MakerState
    var linkUp: bool
    var heartbeat: Option<BeatPc>
    var key: Byte
    var manData: seq<Byte>
    var events: seq<MakerState>
    var frames: seq<SentFrame>
    ghost var call: CallPc
    ghost var spawned: nat
    ghost var joined: nat

    constructor (articles: set<int>)
      ensures Model() == Init() && this.articles == articles
    {
      this.articles := articles;
      state, linkUp, heartbeat, key := Disconnected, false, None, 0;
      manData, events, frames := [], [], [];
      call, spawned, joined := Idle, 0, 0;
    }

    ghost function Model(): State
      reads this
    {
      State(state, linkUp, heartbeat, key, call, manData, events, frames, spawned, joined)
    }

    /** The steps lead from the one state of the object to the other. */
    twostate predicate Took(steps: seq<Step>)
      reads this
    {
      IsAssumedRun(old(Model()), steps, articles, Model())
    }

    method ChangeState(newState: MakerState)
      modifies this`state, this`events
      ensures Model() == SetState(old(Model()), newState)
    {
      if newState != state {
        state := newState;
        events := events + [newState];
      }
    }

    method WriteData(data: seq<Byte>, overrideKey: bool, accepted: bool) returns (ok: bool)
      requires data != []
      modifies this`frames
      ensures Model() == Write(old(Model()), data, overrideKey, accepted)
      ensures ok == (linkUp && accepted)
    {
      var bytes := PrepareFrame(data, key, true, overrideKey);
      if !linkUp {
        return false;
      }
      if accepted {
        frames := frames + [SentFrame(data, overrideKey, key, bytes)];
      }
      ok := accepted;
    }

    method ParseManData(data: seq<Byte>, ghost accepted: bool)
      requires call == CallPc.OnConnected(data) && Usable(data, articles)
      modifies this`key, this`call
      ensures Model() == Apply(old(Model()), Continue(accepted), articles) && call == Greeting && key == data[0]
    {
      key := data[0];
      call := Greeting;
    }

    method StayInBle(accepted: bool)
      modifies this`frames
      ensures Model() == Write(old(Model()), STAY_IN_BLE, false, accepted)
      ensures linkUp && accepted ==> Sent(old(frames), frames, key, [key, 0x7F, 0x80])
      ensures !(linkUp && accepted) ==> frames == old(frames)
    {
      hide Sent;
      CommandsArrive(Model(), accepted);
      var _ := WriteData(STAY_IN_BLE, false, accepted);
    }

    method Greet(accepted: bool)
      requires call == Greeting
      modifies this`frames, this`call
      ensures Model() == Apply(old(Model()), Continue(accepted), articles) && call == Spawning
      ensures linkUp && accepted ==> Sent(old(frames), frames, key, [key, 0x7F, 0x80])
      ensures !(linkUp && accepted) ==> frames == old(frames)
    {
      hide Sent;
      StayInBle(accepted);
      call := Spawning;
    }

    method SpawnHeartbeat(ghost accepted: bool)
      requires call == Spawning && heartbeat.None?
      modifies this`heartbeat, this`spawned, this`call
      ensures Model() == Apply(old(Model()), Continue(accepted), articles) && call == Established && heartbeat == Some(Guard)
    {
      heartbeat := Some(Guard);
      spawned := spawned + 1;
      call := Established;
    }

    /** Parses the manufacturer data, greets the machine and starts the heartbeat thread. */
    method HandleConnected(data: seq<Byte>, accepted: bool) returns (ghost steps: seq<Step>)
      requires call == CallPc.OnConnected(data) && Usable(data, articles) && heartbeat.None?
      modifies this`key, this`call, this`frames, this`heartbeat, this`spawned
      ensures Took(steps) && call == Established && heartbeat.Some? && key == data[0]
      ensures linkUp && accepted ==> Sent(old(frames), frames, key, [key, 0x7F, 0x80])
      ensures !(linkUp && accepted) ==> frames == old(frames)
    {
      hide Apply, Usable, Write, IsAssumedRun, Sent;
      ghost var go := Continue(accepted);
      ghost var before, s1 := Model(), Model();
      ParseManData(data, accepted);
      OneStep(before, go, articles);
      s1 := Model();
      Greet(accepted);
      OneStep(s1, go, articles);
      Chain(before, [go], s1, [go], Model(), articles);
      s1 := Model();
      SpawnHeartbeat(accepted);
      OneStep(s1, go, articles);
      Chain(before, [go] + [go], s1, [go], Model(), articles);
      steps := [go] + [go] + [go];
    }

    method EnterConnect(ghost accepted: bool) returns (ghost steps: seq<Step>)
      requires call == Idle && !linkUp && state == Disconnected
      modifies this`state, this`events, this`call
      ensures Took(steps) && call == Linking && state == Connecting && events == old(events) + [Connecting]
    {
      hide IsAssumedRun;
      ghost var go := Continue(accepted);
      ghost var before := Model();
      call := Entered;
      OneStep(before, CallConnect, articles);
      ghost var s1 := Model();
      ChangeState(Connecting);
      call := Linking;
      OneStep(s1, go, articles);
      Chain(before, [CallConnect], s1, [go], Model(), articles);
      steps := [CallConnect] + [go];
    }

    method FailConnect(ghost accepted: bool) returns (ghost steps: seq<Step>)
      requires call == Linking && state == Connecting
      modifies this`state, this`events, this`call
      ensures Took(steps) && call == Idle && state == Disconnected && events == old(events) + [Disconnected]
    {
      hide IsAssumedRun;
      ghost var go := Continue(accepted);
      ghost var before := Model();
      call := LinkFailed;
      OneStep(before, GattFails, articles);
      ghost var s1 := Model();
      ChangeState(Disconnected);
      call := Idle;
      OneStep(s1, go, articles);
      Chain(before, [GattFails], s1, [go], Model(), articles);
      steps := [GattFails] + [go];
    }

    /** The part of BLEDevice::connect that marks the link as up. */
    method LinkComesUp(data: seq<Byte>) returns (ghost steps: seq<Step>)
      requires call == Linking && Usable(data, articles)
      modifies this`linkUp, this`manData, this`call
      ensures Took(steps) && call == CallPc.OnConnected(data) && linkUp && manData == data
    {
      ghost var before := Model();
      linkUp := true;
      manData := data;
      call := CallPc.OnConnected(data);
      OneStep(before, GattLinks(data), articles);
      steps := [GattLinks(data)];
    }

    method FinishConnect(ghost accepted: bool) returns (ghost steps: seq<Step>)
      requires call == Established && state == Connecting
      modifies this`state, this`events, this`call
      ensures Took(steps) && call == Idle && state == Connected && events == old(events) + [Connected]
    {
      ghost var before := Model();
      ChangeState(Connected);
      call := Idle;
      OneStep(before, Continue(accepted), articles);
      steps := [Continue(accepted)];
    }

    /** connect: `link` is what GATT gives, None when no link comes up. */
    method Connect(link: Option<seq<Byte>>, accepted: bool) returns (ok: bool, ghost steps: seq<Step>)
      requires call == Idle && !linkUp && Inv(Model(), articles) && (link.Some? ==> Usable(link.value, articles))
      modifies this
      ensures Took(steps) && Inv(Model(), articles) && call == Idle
      ensures ok == link.Some? && linkUp == ok && state == (if ok then Connected else Disconnected)
      ensures heartbeat.Some? <==> ok
      ensures events == old(events) + [Connecting] + [state]
      ensures ok ==> manData == link.value && key == manData[0]
      ensures ok && accepted ==> Sent(old(frames), frames, manData[0], [manData[0], 0x7F, 0x80])
      ensures !(ok && accepted) ==> frames == old(frames)
    {
      assert link.Some? ==> link.value != [];
      hide Usable, Inv, IsAssumedRun, Sent;
      IdleWithoutLink(Model(), articles);
      ghost var before := Model();
      steps := EnterConnect(accepted);
      ghost var s1, rest := Model(), [];
      if link.None? {
        rest := FailConnect(accepted);
        Chain(before, steps, s1, rest, Model(), articles);
        steps := steps + rest;
      } else {
        rest := LinkComesUp(link.value);
        Chain(before, steps, s1, rest, Model(), articles);
        steps := steps + rest;
        s1 := Model();
        rest := HandleConnected(link.value, accepted);
        Chain(before, steps, s1, rest, Model(), articles);
        steps := steps + rest;
        s1 := Model();
        rest := FinishConnect(accepted);
        Chain(before, steps, s1, rest, Model(), articles);
        steps := steps + rest;
      }
      InvAfter(before, steps, Model(), articles);
      ok := link.Some?;
    }

    // ----- the heartbeat thread, step by step -----

    /** One step of heartbeat_run: check the loop guard, send, ask for the status, sleep. */
    method HeartbeatStep(accepted: bool)
      requires heartbeat.Some? && heartbeat.value != Exited
      modifies this`heartbeat, this`frames
      ensures Model() == HeartBeat(old(Model()), accepted)
      ensures old(heartbeat) == Some(Sending) && linkUp && accepted ==> Sent(old(frames), frames, key, [key, 0x7F, 0x80])
      ensures !(old(heartbeat) == Some(Sending) && linkUp && accepted) ==> frames == old(frames)
    {
      hide Sent;
      match heartbeat.value
      case Guard =>
        heartbeat := Some(if state == Connected || state == Connecting then Sending else Exited);
      case Sending =>
        StayInBle(accepted);
        heartbeat := Some(Requesting);
      case Requesting =>
        heartbeat := Some(Sleeping);
      case Sleeping =>
        heartbeat := Some(Guard);
    }

    /** join: the heartbeat thread goes on until it has left its loop. */
    method Join() returns (ghost steps: seq<Step>)
      requires call == Joining && state == Disconnecting && heartbeat.Some?
      modifies this`heartbeat, this`frames
      ensures Took(steps) && heartbeat == Some(Exited)
      ensures !linkUp ==> frames == old(frames)
      ensures old(frames) <= frames
    {
      hide IsAssumedRun, HeartBeat, Cipher.Crypt;
      ghost var before := Model();
      steps := [];
      NoSteps(before, articles);
      while heartbeat != Some(Exited)
        invariant heartbeat.Some? && IsAssumedRun(before, steps, articles, Model())
        invariant (!linkUp ==> frames == before.frames) && before.frames <= frames
        decreases BeatsLeft(heartbeat)
      {
        ghost var s1 := Model();
        var accepted: bool := *;
        HeartbeatStep(accepted);
        OneStep(s1, Beat(accepted), articles);
        Chain(before, steps, s1, [Beat(accepted)], Model(), articles);
        DisconnectingBeat(s1, accepted);
        steps := steps + [Beat(accepted)];
      }
    }

    // ----- the end of a session -----

    method Leave(accepted: bool) returns (ghost steps: seq<Step>)
      requires (call == Closing || call == Dropped) && Live(state) && heartbeat.Some?
      modifies this`state, this`events, this`call, this`frames
      ensures Took(steps) && call == Joining && state == Disconnecting && events == old(events) + [Disconnecting]
      ensures linkUp && accepted ==> Sent(old(frames), frames, key, [key, 0x7F, 0x81])
      ensures !(linkUp && accepted) ==> frames == old(frames)
    {
      hide IsAssumedRun, Sent;
      ghost var go := Continue(accepted);
      ghost var before := Model();
      ChangeState(Disconnecting);
      call := Leaving;
      OneStep(before, go, articles);
      ghost var s1 := Model();
      SayGoodbye(accepted);
      OneStep(s1, go, articles);
      Chain(before, [go], s1, [go], Model(), articles);
      steps := [go] + [go];
    }

    /** Sends the disconnect command. */
    method SayGoodbye(accepted: bool)
      requires call == Leaving
      modifies this`frames, this`call
      ensures Model() == Apply(old(Model()), Continue(accepted), articles) && call == Joining
      ensures linkUp && accepted ==> Sent(old(frames), frames, key, [key, 0x7F, 0x81])
      ensures !(linkUp && accepted) ==> frames == old(frames)
    {
      hide Sent;
      CommandsArrive(Model(), accepted);
      var _ := WriteData(DISCONNECT, false, accepted);
      call := Joining;
    }

    method FinishDisconnect(ghost accepted: bool) returns (ghost steps: seq<Step>)
      requires call == Joining && state == Disconnecting && heartbeat == Some(Exited)
      modifies this`heartbeat, this`joined, this`state, this`events, this`call
      ensures Took(steps) && call == Idle && state == Disconnected && heartbeat.None? && events == old(events) + [Disconnected]
    {
      ghost var before := Model();
      heartbeat := None;
      joined := joined + 1;
      ChangeState(Disconnected);
      call := Idle;
      OneStep(before, Continue(accepted), articles);
      steps := [Continue(accepted)];
    }

    /** The body of disconnect, which does nothing unless there is a session. */
    method Close(accepted: bool) returns (ghost steps: seq<Step>)
      requires (call == Closing || call == Dropped) && Inv(Model(), articles)
      modifies this`state, this`events, this`call, this`frames, this`heartbeat, this`joined
      ensures Took(steps) && call == Idle && state == Disconnected && heartbeat.None?
      ensures !linkUp ==> frames == old(frames)
      ensures old(state) == Connected && linkUp && accepted ==> SaidGoodbye(old(frames), frames, key)
      ensures events == old(events) + if old(state) == Connected then [Disconnecting] + [Disconnected] else []
    {
      hide IsAssumedRun, Usable, Beating, LifeCycle, Keys;
      ghost var before := Model();
      if state == Connecting || state == Connected {
        steps := Leave(accepted);
        ghost var s1 := Model();
        ghost var rest := Join();
        Chain(before, steps, s1, rest, Model(), articles);
        steps := steps + rest;
        s1 := Model();
        rest := FinishDisconnect(accepted);
        Chain(before, steps, s1, rest, Model(), articles);
        steps := steps + rest;
      } else {
        call := Idle;
        OneStep(before, Continue(accepted), articles);
        steps := [Continue(accepted)];
      }
    }

    /** disconnect: afterwards there is no session and no thread, whatever there was before. */
    method Disconnect(accepted: bool) returns (ghost steps: seq<Step>)
      requires call == Idle && Inv(Model(), articles)
      modifies this`state, this`events, this`call, this`frames, this`heartbeat, this`joined
      ensures Took(steps) && Inv(Model(), articles) && call == Idle && state == Disconnected && heartbeat.None?
      ensures old(state) == Connected ==> manData != [] && (accepted ==> SaidGoodbye(old(frames), frames, manData[0]))
      ensures events == old(events) + if old(state) == Connected then [Disconnecting] + [Disconnected] else []
    {
      hide IsAssumedRun, Inv, SaidGoodbye;
      if state == Connected {
        ConnectedHasLink(Model(), articles);
        KeyOfLink(Model(), articles);
      }
      ghost var before := Model();
      call := Closing;
      OneStep(before, CallDisconnect, articles);
      InvAfter(before, [CallDisconnect], Model(), articles);
      ghost var s1 := Model();
      ghost var rest := Close(accepted);
      Chain(before, [CallDisconnect], s1, rest, Model(), articles);
      steps := [CallDisconnect] + rest;
      InvAfter(before, steps, Model(), articles);
    }

    /** The callback for a lost link. Nothing is sent any more. */
    method HandleLinkLost(accepted: bool) returns (ghost steps: seq<Step>)
      requires call == Idle && Inv(Model(), articles) && linkUp
      modifies this`linkUp, this`state, this`events, this`call, this`frames, this`heartbeat, this`joined
      ensures Took(steps) && Inv(Model(), articles) && call == Idle && state == Disconnected && heartbeat.None? && !linkUp
      ensures frames == old(frames)
      ensures events == old(events) + if old(state) == Connected then [Disconnecting] + [Disconnected] else []
    {
      hide IsAssumedRun, Inv;
      ghost var before := Model();
      linkUp := false;
      call := Dropped;
      OneStep(before, RemoteDrop, articles);
      InvAfter(before, [RemoteDrop], Model(), articles);
      ghost var s1 := Model();
      ghost var rest := Close(accepted);
      Chain(before, [RemoteDrop], s1, rest, Model(), articles);
      steps := [RemoteDrop] + rest;
      InvAfter(before, steps, Model(), articles);
    }

    // ----- orders -----

    /** Orders a product: one frame, which the machine decodes with the key of the session to the product's fields. */
    method RequestCoffee(p: Commands.Product, accepted: bool) returns (ok: bool, ghost steps: seq<Step>)
      requires call == Idle && Inv(Model(), articles) && Commands.ProductOk(p) && Commands.InHex(p)
      modifies this`frames
      ensures Took(steps) && Inv(Model(), articles) && ok == (linkUp && accepted)
      ensures linkUp ==> manData != [] && key == manData[0]
      ensures !ok ==> frames == old(frames)
      ensures ok ==> |frames| == |old(frames)| + 1 && frames[..|old(frames)|] == old(frames) && IsOrder(p, frames[|old(frames)|], key)
    {
      hide Inv, IsAssumedRun, Commands.FieldsFrom, Commands.InHex, Commands.ProductOk, Hex.FromHex, Frame;
      Commands.OrderDecodes(p, key);
      ghost var before := Model();
      var text := Commands.ProductToCommand(p);
      var bytes := Hex.FromHexString(text);
      ok := WriteData(bytes.value, true, accepted);
      OneStep(before, Send(bytes.value, true, accepted), articles);
      steps := [Send(bytes.value, true, accepted)];
      InvAfter(before, steps, Model(), articles);
      if linkUp {
        KeyOfLink(Model(), articles);
      }
    }
  }

  /** The first new frame of the log is the goodbye; the heartbeat thread may have sent another one behind it. */
  ghost predicate SaidGoodbye(before: seq<SentFrame>, after: seq<SentFrame>, key: Byte) {
    before <= after && |before| < |after| && Sent(before, after[..|before| + 1], key, [key, 0x7F, 0x81])
  }

  /** A frame that decodes to the key, the fields of the product, and the key. */
  ghost predicate IsOrder(p: Commands.Product, f: SentFrame, key: Byte)
    requires Commands.ProductOk(p) && Commands.InHex(p)
  {
    var order := Cipher.Crypt(f.bytes, key);
    && f.key == key && |order| == 18 && order[0] == key && order[1] == Hex.FromHex(p.code)[0] && order[17] == key
    && forall k :: 1 <= k <= 16 ==> order[k] == Commands.FieldByte(p, k)
  }

  lemma NoSteps(s: State, articles: set<int>)
    ensures IsAssumedRun(s, [], articles, s)
  {}

  /** In DISCONNECTING every step of the heartbeat thread brings it closer to its end. */
  lemma DisconnectingBeat(s: State, accepted: bool)
    requires s.state == Disconnecting && s.thread.Some? && s.thread.value != Exited
    ensures !s.linkUp ==> HeartBeat(s, accepted).frames == s.frames
    ensures HeartBeat(s, accepted).thread.Some? && BeatsLeft(HeartBeat(s, accepted).thread) < BeatsLeft(s.thread)
  {}

  /** A run of the machine under the assumption about manufacturer data, from one state to another. */
  ghost predicate IsAssumedRun(s: State, steps: seq<Step>, articles: set<int>, t: State) {
    IsRun(s, steps, articles) && Assumed(steps, articles) && t == Run(s, steps, articles)
  }

  lemma OneStep(s: State, step: Step, articles: set<int>)
    requires Enabled(s, step) && (step.GattLinks? ==> Usable(step.manData, articles))
    ensures IsAssumedRun(s, [step], articles, Apply(s, step, articles))
  {
    hide Apply, Enabled, Usable;
    StartRun(s, step, articles);
  }

  lemma Chain(s: State, first: seq<Step>, t: State, second: seq<Step>, u: State, articles: set<int>)
    requires IsAssumedRun(s, first, articles, t) && IsAssumedRun(t, second, articles, u)
    ensures IsAssumedRun(s, first + second, articles, u)
  {
    hide IsRun, Run, Usable;
    RunAppend(s, first, second, articles);
  }

  lemma InvAfter(s: State, steps: seq<Step>, t: State, articles: set<int>)
    requires Inv(s, articles) && IsAssumedRun(s, steps, articles, t)
    ensures Inv(t, articles)
  {
    hide Inv, IsRun, Run;
    RunKeepsInv(s, steps, articles);
  }

  /** Between calls the key is that of the link that is up. */
  lemma KeyOfLink(s: State, articles: set<int>)
    requires Inv(s, articles) && s.call == Idle && s.linkUp
    ensures s.manData != [] && s.key == s.manData[0]
  {}

  lemma ConnectedHasLink(s: State, articles: set<int>)
    requires Inv(s, articles) && s.call == Idle && s.state == Connected
    ensures s.linkUp
  {}

  lemma IdleWithoutLink(s: State, articles: set<int>)
    requires Inv(s, articles) && s.call == Idle && !s.linkUp
    ensures s.state == Disconnected && s.thread.None?
  {}
}
