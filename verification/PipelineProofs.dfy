/** What every run of the pipeline keeps. */
module PipelineProofs {
  import opened Sequences
  import opened PipelineModel

  // ---------- The invariant ----------

  /** The buffer a camera thread at `pc` has in hand. */
  function CamHolds(pc: CamPc): seq<nat> {
    match pc
    case CamCapture(b) => [b]
    case CamFailing(b) => [b]
    case CamGiveBack(b, _) => [b]
    case CamPack(b) => [b]
    case CamPush(b) => [b]
    case _ => []
  }

  function UsbHolds(pc: UsbPc): seq<nat> {
    match pc
    case UsbSend(b) => [b]
    case UsbFailing(b) => [b]
    case UsbGiveBack(b, _) => [b]
    case _ => []
  }

  function CamHand(s: State): seq<nat> {
    CamHolds(s.cam)
  }

  function UsbHand(s: State): seq<nat> {
    UsbHolds(s.usb)
  }

  function Everywhere(s: State): multiset<nat> {
    multiset(s.empty) + multiset(s.action) + multiset(CamHand(s)) + multiset(UsbHand(s))
  }

  /** Every buffer of the pool is in exactly one of the two queues and the two hands. */
  ghost predicate Partition(n: nat, s: State) {
    Everywhere(s) == if s.pooled then multiset(Ids(n)) else multiset{}
  }

  ghost predicate DataOk(n: nat, s: State) {
    |s.data| == if s.pooled then n else 0
  }

  /** A sleeping thread has nothing to do: its queue is empty and nobody asked it to stop. */
  ghost predicate NoLostWakeup(s: State) {
    && (s.cam == CamAsleep ==> s.empty == [] && !s.shutdown)
    && (s.usb == UsbAsleep ==> s.action == [] && !s.shutdown)
  }

  function Contents(data: seq<Packet>, queue: seq<nat>): seq<Packet>
    requires forall i :: 0 <= i < |queue| ==> queue[i] < |data|
  {
    seq(|queue|, i requires 0 <= i < |queue| => data[queue[i]])
  }

  /** Packets on their way: in the USB thread's hand, then in the action queue. */
  function InFlight(s: State): seq<nat> {
    (if s.usb.UsbSend? then [s.usb.buf] else []) + s.action
  }

  /** Camera packets come out in the order they went in, each once: attempted so far, in
      flight, and that is all that was pushed (until the pool is released). */
  ghost predicate Fifo(n: nat, s: State)
    requires forall i :: 0 <= i < |InFlight(s)| ==> InFlight(s)[i] < |s.data|
  {
    s.freed == 0 ==> s.attempted + Contents(s.data, InFlight(s)) == s.pushed
  }

  /** The life of the three threads. */
  ghost predicate Lifecycle(s: State) {
    && (s.main == MainAlloc || s.main == MainCreateCam ==> !s.shutdown)
    && (s.cam == CamAbsent <== s.main == MainAlloc || s.main == MainCreateCam)
    && (s.usb == UsbAbsent <== s.main == MainAlloc || s.main == MainCreateCam || s.main == MainCreateUsb
                               || s.main == MainAbort || s.main == MainJoinCam(false))
    && (s.cam == CamAbsent ==> s.main == MainAlloc || s.main == MainCreateCam || s.main == MainDone)
    && (s.usb == UsbAbsent ==> s.main != MainRunning && s.main != MainJoinCam(true) && s.main != MainJoinUsb)
    && (s.cam == CamExited ==> s.shutdown)
    && (s.usb == UsbExited ==> s.shutdown)
    && (s.cam.CamGiveBack? && s.cam.last ==> s.shutdown)
    && (s.usb.UsbGiveBack? && s.usb.last ==> s.shutdown)
    && (s.main.MainJoinCam? || s.main == MainJoinUsb || s.main == MainRelease || s.main == MainDone ==> s.shutdown)
    && (s.main == MainJoinUsb || s.main == MainRelease ==> s.cam == CamExited)
    && (s.main == MainRelease ==> s.usb == UsbExited || s.usb == UsbAbsent)
    && (s.main == MainDone ==>
          && (s.cam == CamAbsent || s.cam == CamExited)
          && (s.usb == UsbAbsent || s.usb == UsbExited))
    && (s.pooled <==> s.main != MainAlloc && s.main != MainDone)
    && (s.freed == 0 || (s.freed == 1 && s.main == MainDone))
    && s.allocs == s.freed + (if s.pooled then 1 else 0)
  }

  ghost predicate ErrorCounts(s: State) {
    && (s.cam.CamFailing? || (s.cam.CamGiveBack? && s.cam.last) || s.cam == CamExited
        || s.camErrors < CAM_ERROR_LIMIT)
    && (s.usb.UsbFailing? || (s.usb.UsbGiveBack? && s.usb.last) || s.usb == UsbExited
        || s.usbErrors < USB_ERROR_LIMIT)
  }

  ghost predicate Inv(n: nat, s: State) {
    && Partition(n, s) && DataOk(n, s) && NoLostWakeup(s) && Lifecycle(s) && ErrorCounts(s)
    && InFlightOk(s) && Fifo(n, s)
  }

  ghost predicate InFlightOk(s: State) {
    && InRange(s)
    && forall i :: 0 <= i < |InFlight(s)| ==> InFlight(s)[i] < |s.data|
  }

  // ---------- One step ----------

  /** How buffers move in a step of the camera thread. */
  lemma CamMoves(n: nat, s: State, l: Label)
    requires Enabled(s, l) && InRange(s) && OfCam(l)
    ensures var t := Do(n, s, l);
      && t.pooled == s.pooled && UsbHand(t) == UsbHand(s)
      && (l.CamPull? ==> t.action == s.action && CamHand(s) == [] && CamHand(t) + t.empty == s.empty)
      && (l.CamReturn? ==> t.action == s.action && CamHand(t) == [] && t.empty == s.empty + CamHand(s))
      && (l.CamPublish? ==> t.empty == s.empty && CamHand(t) == [] && t.action == s.action + CamHand(s))
      && (!l.CamPull? && !l.CamReturn? && !l.CamPublish? ==>
            t.empty == s.empty && t.action == s.action && CamHand(t) == CamHand(s))
  {
    hide CamPulled;
    if l.CamPull? {
      CamPullMoves(s);
    }
  }

  lemma CamPullMoves(s: State)
    requires s.cam == CamLock
    ensures var t := CamPulled(s);
      && t.pooled == s.pooled && t.usb == s.usb && t.action == s.action
      && CamHand(s) == [] && CamHand(t) + t.empty == s.empty
  {
  }

  /** How buffers move in a step of the USB thread. */
  lemma UsbMoves(n: nat, s: State, l: Label)
    requires Enabled(s, l) && InRange(s) && OfUsb(l)
    ensures var t := Do(n, s, l);
      && t.pooled == s.pooled && CamHand(t) == CamHand(s)
      && (l.UsbPull? ==> t.empty == s.empty && UsbHand(s) == [] && UsbHand(t) + t.action == s.action)
      && (l.UsbReturn? ==> t.action == s.action && UsbHand(t) == [] && t.empty == s.empty + UsbHand(s))
      && (!l.UsbPull? && !l.UsbReturn? ==>
            t.empty == s.empty && t.action == s.action && UsbHand(t) == UsbHand(s))
  {
    hide UsbPulled;
    if l.UsbPull? {
      UsbPullMoves(s);
    }
  }

  lemma UsbPullMoves(s: State)
    requires s.usb == UsbLock
    ensures var t := UsbPulled(s);
      && t.pooled == s.pooled && t.cam == s.cam && t.empty == s.empty
      && UsbHand(s) == [] && UsbHand(t) + t.action == s.action
  {
  }

  /** How buffers move when threads are started and stopped: the pool appears in the
      empty queue, and is released only from the queues. */
  lemma MainMoves(n: nat, s: State, l: Label)
    requires Lifecycle(s) && Enabled(s, l) && InRange(s) && !OfCam(l) && !OfUsb(l)
    ensures var t := Do(n, s, l);
      && CamHand(t) == CamHand(s) && UsbHand(t) == UsbHand(s)
      && (l.Allocate? && l.ok ==> t.empty == Ids(n) && t.action == s.action && t.pooled && !s.pooled)
      && (l.Release? || (l.StartCam? && !l.ok) ==>
            t.empty == t.action == CamHand(t) == UsbHand(t) == [] && !t.pooled)
      && (!(l.Allocate? && l.ok) && !l.Release? && !(l.StartCam? && !l.ok) ==>
            t.empty == s.empty && t.action == s.action && t.pooled == s.pooled)
  {
  }

  lemma PartitionKept(n: nat, s: State, l: Label)
    requires Partition(n, s) && Lifecycle(s) && Enabled(s, l) && InRange(s)
    ensures Partition(n, Do(n, s, l))
  {
    hide Do, Enabled, CamHand, UsbHand, Lifecycle, Ids;
    if OfCam(l) {
      CamMoves(n, s, l);
    } else if OfUsb(l) {
      UsbMoves(n, s, l);
    } else {
      MainMoves(n, s, l);
    }
  }

  lemma SomewhereInRange(n: nat, s: State, b: nat)
    requires Partition(n, s)
    requires b in s.empty || b in s.action || b in CamHand(s) || b in UsbHand(s)
    ensures b < n && s.pooled
  {
    hide CamHand, UsbHand, Ids;
    assert b in Everywhere(s);
    IdsOnce(n, b);
  }

  /** Whatever is somewhere is a buffer of the pool. */
  lemma BuffersInRange(n: nat, s: State)
    requires Partition(n, s) && DataOk(n, s)
    ensures InFlightOk(s)
  {
    hide Partition;
    forall b | b in s.action || b in CamHand(s) || b in UsbHand(s)
      ensures b < n && s.pooled
    {
      SomewhereInRange(n, s, b);
    }
    assert s.cam.CamPack? || s.cam.CamPush? ==> s.cam.buf in CamHand(s);
    assert s.usb.UsbSend? ==> s.usb.buf in UsbHand(s);
    assert forall i :: 0 <= i < |InFlight(s)| ==> InFlight(s)[i] in s.action || InFlight(s)[i] in UsbHand(s);
  }

  lemma DataLength(n: nat, s: State, l: Label)
    requires DataOk(n, s) && Enabled(s, l) && InRange(s)
    ensures DataOk(n, Do(n, s, l))
  {
  }

  lemma LifeCam(n: nat, s: State, l: Label)
    requires NoLostWakeup(s) && Lifecycle(s) && ErrorCounts(s) && Enabled(s, l) && InRange(s) && OfCam(l)
    ensures var t := Do(n, s, l); NoLostWakeup(t) && Lifecycle(t) && ErrorCounts(t)
  {
  }

  lemma LifeUsb(n: nat, s: State, l: Label)
    requires NoLostWakeup(s) && Lifecycle(s) && ErrorCounts(s) && Enabled(s, l) && InRange(s) && OfUsb(l)
    ensures var t := Do(n, s, l); NoLostWakeup(t) && Lifecycle(t) && ErrorCounts(t)
  {
  }

  lemma LifeMain(n: nat, s: State, l: Label)
    requires NoLostWakeup(s) && Lifecycle(s) && ErrorCounts(s) && Enabled(s, l) && InRange(s)
    requires !OfCam(l) && !OfUsb(l)
    ensures var t := Do(n, s, l); NoLostWakeup(t) && Lifecycle(t) && ErrorCounts(t)
  {
  }

  /** A buffer in the camera's hand is not on its way to USB, so packing into it does not
      disturb a packet in flight. */
  lemma HandNotInFlight(n: nat, s: State)
    requires Partition(n, s) && CamHand(s) != []
    ensures forall i :: 0 <= i < |InFlight(s)| ==> InFlight(s)[i] != CamHand(s)[0]
  {
    var b := CamHand(s)[0];
    IdsOnce(n, b);
    assert Everywhere(s)[b] <= 1;
    assert multiset(CamHand(s))[b] == 1;
    assert b !in s.action && b !in UsbHand(s) by {
      assert multiset(s.action)[b] == 0 && multiset(UsbHand(s))[b] == 0;
    }
    assert forall i :: 0 <= i < |InFlight(s)| ==> InFlight(s)[i] in s.action || InFlight(s)[i] in UsbHand(s);
  }

  lemma {:induction false} IdsOnce(n: nat, b: nat)
    ensures multiset(Ids(n))[b] == if b < n then 1 else 0
  {
    if n > 0 {
      IdsOnce(n - 1, b);
      assert Ids(n) == Ids(n - 1) + [n - 1];
    }
  }

  lemma FifoPack(n: nat, s: State, l: Label)
    requires InFlightOk(s) && Enabled(s, l) && Fifo(n, s) && l.CamPackFrame? && InFlightOk(Do(n, s, l))
    requires forall i :: 0 <= i < |InFlight(s)| ==> InFlight(s)[i] != s.cam.buf
    ensures Fifo(n, Do(n, s, l))
  {
    var t := Do(n, s, l);
    assert InFlight(t) == InFlight(s);
    assert Contents(t.data, InFlight(t)) == Contents(s.data, InFlight(s));
  }

  lemma FifoPublish(n: nat, s: State)
    requires InFlightOk(s) && Fifo(n, s) && s.cam.CamPush?
    requires InFlightOk(Do(n, s, CamPublish))
    ensures Fifo(n, Do(n, s, CamPublish))
  {
    var t := Do(n, s, CamPublish);
    var was, now := Contents(s.data, InFlight(s)), Contents(t.data, InFlight(t));
    assert now == was + [s.data[s.cam.buf]];
    assert s.attempted + now == (s.attempted + was) + [s.data[s.cam.buf]];
  }

  lemma FifoPull(n: nat, s: State)
    requires InFlightOk(s) && Fifo(n, s) && s.usb == UsbLock
    requires InFlightOk(Do(n, s, UsbPull))
    ensures Fifo(n, Do(n, s, UsbPull))
  {
    assert InFlight(Do(n, s, UsbPull)) == InFlight(s);
  }

  lemma FifoSend(n: nat, s: State, r: SendResult)
    requires InFlightOk(s) && Fifo(n, s) && s.usb.UsbSend?
    requires InFlightOk(Do(n, s, UsbSendBytes(r)))
    ensures Fifo(n, Do(n, s, UsbSendBytes(r)))
  {
    var t := Do(n, s, UsbSendBytes(r));
    var was, now := Contents(s.data, InFlight(s)), Contents(t.data, InFlight(t));
    assert was == [s.data[s.usb.buf]] + now;
    assert t.attempted + now == s.attempted + was;
  }

  lemma FifoAllocate(n: nat, s: State, l: Label)
    requires Partition(n, s) && Lifecycle(s) && InFlightOk(s) && Fifo(n, s) && Enabled(s, l) && l.Allocate?
    requires InFlightOk(Do(n, s, l))
    ensures Fifo(n, Do(n, s, l))
  {
    assert |Everywhere(s)| == 0;
    var t := Do(n, s, l);
    assert InFlight(s) == InFlight(t) == [];
    assert Contents(t.data, []) == Contents(s.data, []);
  }

  lemma FifoStill(n: nat, s: State, l: Label)
    requires InFlightOk(s) && Enabled(s, l) && Fifo(n, s) && Lifecycle(s) && InFlightOk(Do(n, s, l))
    requires !(l.CamPackFrame? || l.CamPublish? || l.UsbPull? || l.UsbSendBytes? || l.Allocate?)
    ensures Fifo(n, Do(n, s, l))
  {
    var t := Do(n, s, l);
    assert t.freed == 0 ==>
      InFlight(t) == InFlight(s) && t.data == s.data && t.attempted == s.attempted && t.pushed == s.pushed;
  }

  lemma StepKeeps(n: nat, s: State, l: Label)
    requires Inv(n, s) && Enabled(s, l)
    ensures InRange(s) && Inv(n, Do(n, s, l))
  {
    hide Do, Partition, Fifo, Lifecycle, NoLostWakeup, ErrorCounts, InFlight;
    var t := Do(n, s, l);
    PartitionKept(n, s, l);
    DataLength(n, s, l);
    BuffersInRange(n, t);
    if OfCam(l) {
      LifeCam(n, s, l);
    } else if OfUsb(l) {
      LifeUsb(n, s, l);
    } else {
      LifeMain(n, s, l);
    }
    if l.CamPackFrame? {
      HandNotInFlight(n, s);
      FifoPack(n, s, l);
    } else if l.CamPublish? {
      FifoPublish(n, s);
    } else if l.UsbPull? {
      FifoPull(n, s);
    } else if l.UsbSendBytes? {
      FifoSend(n, s, l.result);
    } else if l.Allocate? {
      FifoAllocate(n, s, l);
    } else {
      FifoStill(n, s, l);
    }
  }

  lemma InitialInv(n: nat)
    ensures Inv(n, Initial())
  {
    assert Contents([], InFlight(Initial())) == [];
  }
}
