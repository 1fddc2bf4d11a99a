/**
  The alerts of a machine (CoffeeMaker::parse_machine_status in src/jutta_bt_proto/CoffeeMaker.cpp):
  a status frame has a bit for each alert, most significant bit first, after its first byte.
 */
module Status {
  import opened Basics
  import opened Cipher

  datatype Alert = Alert(bit: nat, name: string, kind: string)

  // ----- what a status frame says -----

  const POWERS: seq<int> := [1, 2, 4, 8, 16, 32, 64, 128]

  predicate BitSet(frame: seq<Byte>, bit: nat) {
    bit / 8 + 1 < |frame| && frame[bit / 8 + 1] / POWERS[7 - bit % 8] % 2 == 1
  }

  /** The bits of a byte are counted from its most significant one on; beyond the last byte none is set. */
  lemma BitSetMeaning(frame: seq<Byte>, j: nat, i: nat)
    requires i < 8
    ensures BitSet(frame, 8 * j + i) <==> j + 1 < |frame| && frame[j + 1] / [128, 64, 32, 16, 8, 4, 2, 1][i] % 2 == 1
  {
    assert (8 * j + i) / 8 == j && (8 * j + i) % 8 == i;
  }

  /** The number that the first `n` bits of a byte spell in binary. */
  function Spelled(frame: seq<Byte>, j: nat, n: nat): nat {
    if n == 0 then 0 else 2 * Spelled(frame, j, n - 1) + if BitSet(frame, 8 * j + n - 1) then 1 else 0
  }

  const HIGH_PARTS: seq<int> := [256, 128, 64, 32, 16, 8, 4, 2, 1]

  lemma NextBit(b: Byte, n: nat)
    requires n < 8
    ensures b / HIGH_PARTS[n + 1] == 2 * (b / HIGH_PARTS[n]) + b / HIGH_PARTS[n + 1] % 2
  {}

  /** Eight bits spell their byte. */
  lemma {:induction false} BitsSpellByte(frame: seq<Byte>, j: nat, n: nat)
    requires n <= 8 && j + 1 < |frame|
    ensures Spelled(frame, j, n) == frame[j + 1] / HIGH_PARTS[n]
    ensures n == 8 ==> Spelled(frame, j, n) == frame[j + 1]
  {
    hide BitSet;
    if n > 0 {
      BitsSpellByte(frame, j, n - 1);
      BitSetMeaning(frame, j, n - 1);
      NextBit(frame[j + 1], n - 1);
    }
  }

  /** The positions below `n` of the alerts that are declared for a bit. */
  function WithBit(declared: seq<Alert>, bit: nat, n: nat): seq<nat>
    requires n <= |declared|
  {
    if n == 0 then []
    else if declared[n - 1].bit == bit then WithBit(declared, bit, n - 1) + [n - 1]
    else WithBit(declared, bit, n - 1)
  }

  /** The alerts of the bits below `bits` that are set, bit by bit, each time in the order of their declaration. */
  function ActiveBelow(declared: seq<Alert>, frame: seq<Byte>, bits: nat): seq<nat> {
    if bits == 0 then []
    else if BitSet(frame, bits - 1) then ActiveBelow(declared, frame, bits - 1) + WithBit(declared, bits - 1, |declared|)
    else ActiveBelow(declared, frame, bits - 1)
  }

  function Active(declared: seq<Alert>, frame: seq<Byte>): seq<nat>
    requires frame != []
  {
    ActiveBelow(declared, frame, 8 * (|frame| - 1))
  }

  predicate InOrder(declared: seq<Alert>, list: seq<nat>) {
    && (forall i :: 0 <= i < |list| ==> list[i] < |declared|)
    && forall i, j :: 0 <= i < j < |list| ==>
      declared[list[i]].bit < declared[list[j]].bit || (declared[list[i]].bit == declared[list[j]].bit && list[i] < list[j])
  }

  lemma {:induction false} WithBitMeaning(declared: seq<Alert>, bit: nat, n: nat)
    requires n <= |declared|
    ensures var list := WithBit(declared, bit, n);
      && (forall a: nat :: a in list <==> a < n && declared[a].bit == bit)
      && (forall i, j :: 0 <= i < j < |list| ==> list[i] < list[j])
  {
    if n > 0 {
      WithBitMeaning(declared, bit, n - 1);
      var before := WithBit(declared, bit, n - 1);
      assert forall i :: 0 <= i < |before| ==> before[i] in before;
    }
  }

  lemma {:induction false} ActiveBelowMeaning(declared: seq<Alert>, frame: seq<Byte>, bits: nat)
    ensures var list := ActiveBelow(declared, frame, bits);
      && InOrder(declared, list)
      && forall a: nat :: a in list <==> a < |declared| && declared[a].bit < bits && BitSet(frame, declared[a].bit)
  {
    hide BitSet, InOrder;
    if bits > 0 {
      ActiveBelowMeaning(declared, frame, bits - 1);
      WithBitMeaning(declared, bits - 1, |declared|);
      AppendInOrder(declared, ActiveBelow(declared, frame, bits - 1), WithBit(declared, bits - 1, |declared|), bits - 1);
    } else {
      EmptyInOrder(declared);
    }
  }

  lemma EmptyInOrder(declared: seq<Alert>)
    ensures InOrder(declared, [])
  {}

  lemma AppendInOrder(declared: seq<Alert>, before: seq<nat>, next: seq<nat>, bit: nat)
    requires InOrder(declared, before) && forall a: nat :: a in before ==> a < |declared| && declared[a].bit < bit
    requires forall a: nat :: a in next ==> a < |declared| && declared[a].bit == bit
    requires forall i, j :: 0 <= i < j < |next| ==> next[i] < next[j]
    ensures InOrder(declared, before + next)
  {
    assert forall i :: 0 <= i < |before| ==> before[i] in before;
    assert forall i :: 0 <= i < |next| ==> next[i] in next;
  }

  /** The list holds exactly the declared alerts whose bit is set, ordered by bit and then by declaration. */
  lemma ActiveMeaning(declared: seq<Alert>, frame: seq<Byte>)
    requires frame != []
    ensures var list := Active(declared, frame);
      && (forall a: nat :: a in list <==> a < |declared| && BitSet(frame, declared[a].bit))
      && (forall i, j :: 0 <= i < j < |list| ==>
            && list[i] < |declared| && list[j] < |declared|
            && (declared[list[i]].bit < declared[list[j]].bit || (declared[list[i]].bit == declared[list[j]].bit && list[i] < list[j])))
      && InOrder(declared, list)
  {
    ActiveBelowMeaning(declared, frame, 8 * (|frame| - 1));
  }

  /** There is only one such list. */
  lemma {:induction false} OrderedListUnique(declared: seq<Alert>, a: seq<nat>, b: seq<nat>)
    requires InOrder(declared, a) && InOrder(declared, b) && forall x: nat :: x in a <==> x in b
    ensures a == b
    decreases |a|
  {
    assert b == [] || b[0] in b;
    if a != [] {
      var x := a[|a| - 1];
      assert x in a;
      var y := b[|b| - 1];
      assert y in b;
      LastIsLast(declared, a, y);
      LastIsLast(declared, b, x);
      var a', b' := a[..|a| - 1], b[..|b| - 1];
      forall z: nat
        ensures z in a' <==> z in b'
      {
        FrontOf(declared, a, z);
        FrontOf(declared, b, z);
      }
      OrderedListUnique(declared, a', b');
    }
  }

  lemma LastIsLast(declared: seq<Alert>, list: seq<nat>, x: nat)
    requires InOrder(declared, list) && x in list
    ensures var last := list[|list| - 1];
      x < |declared| && last < |declared| &&
      (x == last || declared[x].bit < declared[last].bit || (declared[x].bit == declared[last].bit && x < last))
  {
    var i :| 0 <= i < |list| && list[i] == x;
  }

  lemma FrontOf(declared: seq<Alert>, list: seq<nat>, x: nat)
    requires InOrder(declared, list) && list != []
    ensures x in list[..|list| - 1] <==> x in list && x != list[|list| - 1]
  {
    var front := list[..|list| - 1];
    assert list == front + [list[|list| - 1]];
    assert forall i :: 0 <= i < |front| ==> front[i] == list[i];
  }

  // ----- the machine's status over time -----

  datatype AlertState = AlertState(alerts: seq<nat>, notified: seq<seq<nat>>)

  function Update(s: AlertState, active: seq<nat>): AlertState {
    if s.alerts == active then s else AlertState(active, s.notified + [active])
  }

  class StatusMonitor {
    /** The alerts that the machine declares; none are known before the first connection. */
    var declared: Option<seq<Alert>>
    var alerts: seq<nat>
    /** The lists that the alerts event handler was called with. */
    var notified: seq<seq<nat>>

    constructor ()
      ensures declared.None? && Model() == AlertState([], [])
    {
      declared, alerts, notified := None, [], [];
    }

    function Model(): AlertState
      reads this
    {
      AlertState(alerts, notified)
    }

    /** Without its first byte a frame has no bits, and without any byte the source must not be asked. */
    method ParseMachineStatus(data: seq<Byte>, key: Byte)
      requires data != []
      modifies this`alerts, this`notified
      ensures declared.None? ==> Model() == old(Model())
      ensures declared.Some? ==> Model() == Update(old(Model()), Active(declared.value, Crypt(data, key)))
    {
      if declared.None? {
        return;
      }
      hide Crypt, Active;
      var frame := EncDecBytes(data, key);
      var newAlerts := ActiveAlerts(frame);
      if alerts != newAlerts {
        alerts := newAlerts;
        notified := notified + [alerts];
      }
    }

    method ActiveAlerts(frame: seq<Byte>) returns (newAlerts: seq<nat>)
      requires declared.Some? && frame != []
      ensures newAlerts == Active(declared.value, frame)
    {
      hide BitSet;
      newAlerts := [];
      for i := 0 to 8 * (|frame| - 1)
        invariant newAlerts == ActiveBelow(declared.value, frame, i)
      {
        var isSet := TestBit(frame, i);
        if isSet {
          newAlerts := AppendAlerts(newAlerts, i);
        }
      }
    }

    method TestBit(frame: seq<Byte>, i: nat) returns (isSet: bool)
      requires i < 8 * (|frame| - 1)
      ensures isSet == BitSet(frame, i)
    {
      var offsetAbs := i / 8 + 1;
      var offsetByte := 7 - i % 8;
      isSet := frame[offsetAbs] / POWERS[offsetByte] % 2 != 0;
    }

    method AppendAlerts(before: seq<nat>, bit: nat) returns (list: seq<nat>)
      requires declared.Some?
      ensures list == before + WithBit(declared.value, bit, |declared.value|)
    {
      list := before;
      for k := 0 to |declared.value|
        invariant list == before + WithBit(declared.value, bit, k)
      {
        if declared.value[k].bit == bit {
          list := list + [k];
        }
      }
    }
  }

  /** What several status frames, already decoded, do to the alerts. */
  function AfterFrames(declared: seq<Alert>, s: AlertState, frames: seq<seq<Byte>>): AlertState
    requires forall k :: 0 <= k < |frames| ==> frames[k] != []
  {
    if frames == [] then s
    else
      var rest := frames[..|frames| - 1];
      Update(AfterFrames(declared, s, rest), Active(declared, frames[|frames| - 1]))
  }

  /** The lists that differ from the one before them. */
  function Changes(before: seq<nat>, lists: seq<seq<nat>>): seq<seq<nat>> {
    if lists == [] then []
    else
      var rest := lists[..|lists| - 1];
      var last := lists[|lists| - 1];
      Changes(before, rest) + if last == (if rest == [] then before else rest[|rest| - 1]) then [] else [last]
  }

  function ActiveLists(declared: seq<Alert>, frames: seq<seq<Byte>>): (r: seq<seq<nat>>)
    requires forall k :: 0 <= k < |frames| ==> frames[k] != []
    ensures |r| == |frames|
  {
    seq(|frames|, k requires 0 <= k < |frames| => Active(declared, frames[k]))
  }

  /** After any frames the alerts are those of the last one, and the handler was called once for each change. */
  lemma {:induction false} AlertsFollowFrames(declared: seq<Alert>, s: AlertState, frames: seq<seq<Byte>>)
    requires forall k :: 0 <= k < |frames| ==> frames[k] != []
    ensures var t := AfterFrames(declared, s, frames);
      && t.alerts == (if frames == [] then s.alerts else Active(declared, frames[|frames| - 1]))
      && t.notified == s.notified + Changes(s.alerts, ActiveLists(declared, frames))
  {
    hide Active;
    var lists := ActiveLists(declared, frames);
    if frames != [] {
      var rest := frames[..|frames| - 1];
      AlertsFollowFrames(declared, s, rest);
      assert lists[..|lists| - 1] == ActiveLists(declared, rest);
    }
  }
}
