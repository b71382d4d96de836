/** What the pipeline promises, over whole runs: any number of steps, in any
    interleaving, with any results of the blocking calls and any spurious wake-ups. */
module PipelineTheorems {
  import opened Wrappers
  import opened Sequences
  import opened PipelineModel
  import opened PipelineProofs

  /** `t` is reached from `s` by a run with labels `ls`. */
  ghost predicate Runs(n: nat, s: State, ls: seq<Label>, t: State)
    decreases |ls|
  {
    if ls == [] then t == s
    else Enabled(s, ls[0]) && InRange(s) && Runs(n, Do(n, s, ls[0]), ls[1..], t)
  }

  lemma {:induction false} RunsKeep(n: nat, s: State, ls: seq<Label>, t: State)
    requires Inv(n, s) && Runs(n, s, ls, t)
    ensures Inv(n, t)
    decreases |ls|
  {
    hide Do, Enabled, Inv;
    if ls != [] {
      StepKeeps(n, s, ls[0]);
      RunsKeep(n, Do(n, s, ls[0]), ls[1..], t);
    }
  }

  /** A state some run of a freshly started pipeline of `n` buffers gets to. */
  ghost predicate Reachable(n: nat, s: State) {
    exists ls: seq<Label> :: Runs(n, Initial(), ls, s)
  }

  lemma ReachableInv(n: nat, s: State)
    requires Reachable(n, s)
    ensures Inv(n, s)
  {
    hide Inv, Runs;
    var ls: seq<Label> :| Runs(n, Initial(), ls, s);
    InitialInv(n);
    RunsKeep(n, Initial(), ls, s);
  }

  // ---------- Safety ----------

  /** How often buffer `b` is in the two queues and the two hands together. */
  function Places(s: State, b: nat): nat {
    multiset(s.empty)[b] + multiset(s.action)[b] + multiset(CamHand(s))[b] + multiset(UsbHand(s))[b]
  }

  /** While the pool is allocated each of its buffers is in exactly one place, and
      nothing else is anywhere. */
  lemma EachBufferInOnePlace(n: nat, s: State, b: nat)
    requires Reachable(n, s)
    ensures Places(s, b) == if s.pooled && b < n then 1 else 0
  {
    hide Reachable;
    ReachableInv(n, s);
    IdsOnce(n, b);
    assert Places(s, b) == Everywhere(s)[b];
  }

  /** No lost wake-up: a thread asleep has an empty queue and was not asked to stop, so
      with at least one buffer the two threads are never asleep together. */
  lemma NeverBothAsleep(n: nat, s: State)
    requires Reachable(n, s) && n > 0
    ensures s.cam == CamAsleep ==> s.empty == [] && !s.shutdown
    ensures s.usb == UsbAsleep ==> s.action == [] && !s.shutdown
    ensures !(s.cam == CamAsleep && s.usb == UsbAsleep)
  {
    hide Reachable;
    ReachableInv(n, s);
    EachBufferInOnePlace(n, s, 0);
  }

  /** No deadlock: until both threads have ended, one of them can take a step of its own
      that is not a spurious wake-up. */
  lemma SomeThreadCanMove(n: nat, s: State)
    requires Reachable(n, s) && n > 0 && s.main == MainRunning
    requires !(s.cam == CamExited && s.usb == UsbExited)
    ensures exists l :: Enabled(s, l) && (OfCam(l) || OfUsb(l)) && !l.CamSpurious? && !l.UsbSpurious?
  {
    hide Reachable, Enabled, OfCam, OfUsb, Partition, Fifo;
    ReachableInv(n, s);
    NeverBothAsleep(n, s);
    assert s.cam != CamAbsent && s.usb != UsbAbsent;
    if s.cam != CamAsleep && s.cam != CamExited {
      CamCanMove(s);
    } else {
      UsbCanMove(s);
    }
  }

  lemma CamCanMove(s: State)
    requires s.cam != CamAbsent && s.cam != CamAsleep && s.cam != CamExited
    ensures Enabled(s, CamMove(s)) && OfCam(CamMove(s)) && !CamMove(s).CamSpurious?
  {
  }

  lemma UsbCanMove(s: State)
    requires s.usb != UsbAbsent && s.usb != UsbAsleep && s.usb != UsbExited
    ensures Enabled(s, UsbMove(s)) && OfUsb(UsbMove(s)) && !UsbMove(s).UsbSpurious?
  {
  }

  /** A label by which the camera thread can leave its present point. */
  function CamMove(s: State): Label {
    match s.cam
    case CamTest => CamReadFlag
    case CamLock => CamPull
    case CamCapture(_) => CamGetFrame(GotFrame)
    case CamFailing(_) => CamRaise
    case CamGiveBack(_, _) => CamReturn
    case CamPack(_) => CamPackFrame(None, [])
    case CamPush(_) => CamPublish
    case _ => CamSpurious
  }

  function UsbMove(s: State): Label {
    match s.usb
    case UsbTest => UsbReadFlag
    case UsbLock => UsbPull
    case UsbSend(_) => UsbSendBytes(Sent)
    case UsbFailing(_) => UsbRaise
    case UsbGiveBack(_, _) => UsbReturn
    case _ => UsbSpurious
  }

  /** End-to-end order: what USB has attempted, then the packet in its hand, then the
      action queue, is exactly what the camera pushed. */
  lemma EndToEndFifo(n: nat, s: State)
    requires Reachable(n, s) && s.freed == 0
    ensures forall i :: 0 <= i < |InFlight(s)| ==> InFlight(s)[i] < |s.data|
    ensures s.pushed == s.attempted + Contents(s.data, InFlight(s))
    ensures s.attempted <= s.pushed
  {
    hide Reachable;
    ReachableInv(n, s);
  }

  /** A packet is pushed by the publishing step alone, which follows a successful pack:
      a frame that fails capture or packing takes no place in the stream. */
  lemma OnlyPublishingPushes(n: nat, s: State, l: Label)
    requires Enabled(s, l) && InRange(s) && !l.CamPublish?
    ensures Do(n, s, l).pushed == s.pushed
    ensures Do(n, s, l).cam.CamPush? && !s.cam.CamPush? ==>
      l.CamPackFrame? && l.packed.Some? && Do(n, s, l).data[Do(n, s, l).cam.buf] == l.packed.value
  {
    hide CamPulled, UsbPulled;
    if l.CamPull? {
      CamPulledPushes(s);
    } else if l.UsbPull? {
      UsbPulledPushes(s);
    }
  }

  /** The packets of the successful packs of a run, in order. */
  function Packed(ls: seq<Label>): seq<Packet> {
    if ls == [] then [] else PackedBy(ls[0]) + Packed(ls[1..])
  }

  function PackedBy(l: Label): seq<Packet> {
    if l.CamPackFrame? && l.packed.Some? then [l.packed.value] else []
  }

  /** The packet that waits in the camera's hand to be published. */
  function Held(s: State): seq<Packet>
    requires InRange(s)
  {
    if s.cam.CamPush? then [s.data[s.cam.buf]] else []
  }

  lemma HeldStep(n: nat, s: State, l: Label)
    requires Inv(n, s) && Enabled(s, l) && InRange(Do(n, s, l))
    ensures var t := Do(n, s, l); t.pushed + Held(t) == s.pushed + Held(s) + PackedBy(l)
  {
    hide Partition, Fifo, NoLostWakeup, ErrorCounts, CamPulled, UsbPulled;
    if l.CamPull? {
      CamPulledPushes(s);
    } else if l.UsbPull? {
      UsbPulledPushes(s);
    } else if !l.CamPackFrame? && !l.CamPublish? {
      OnlyPublishingPushes(n, s, l);
    }
  }

  lemma {:induction false} PackedAreHeld(n: nat, s: State, ls: seq<Label>, t: State)
    requires Inv(n, s) && Runs(n, s, ls, t)
    ensures Inv(n, t) && t.pushed + Held(t) == s.pushed + Held(s) + Packed(ls)
    decreases |ls|
  {
    hide Do, Enabled, Held, PackedBy, Partition, Fifo, NoLostWakeup, ErrorCounts, Lifecycle;
    if ls != [] {
      var u := Do(n, s, ls[0]);
      StepKeeps(n, s, ls[0]);
      HeldStep(n, s, ls[0]);
      PackedAreHeld(n, u, ls[1..], t);
      assert s.pushed + Held(s) + PackedBy(ls[0]) + Packed(ls[1..]) == s.pushed + Held(s) + Packed(ls);
    }
  }

  /** End to end, over every run: what USB has attempted, then the packet in its hand, then
      the action queue, then the packet in the camera's hand, are exactly the packets that
      were packed, in order.  Nothing is lost, repeated or reordered on the way, and frames
      that fail capture or packing take no place in the stream. */
  lemma PackedInOrder(n: nat, ls: seq<Label>, t: State)
    requires Runs(n, Initial(), ls, t)
    ensures InRange(t) && t.pushed + Held(t) == Packed(ls)
    ensures t.freed == 0 ==>
      && (forall i :: 0 <= i < |InFlight(t)| ==> InFlight(t)[i] < |t.data|)
      && t.attempted + Contents(t.data, InFlight(t)) + Held(t) == Packed(ls)
  {
    hide Runs, Held, Packed, Partition, NoLostWakeup, ErrorCounts, Lifecycle;
    InitialInv(n);
    NothingHeldYet();
    PackedAreHeld(n, Initial(), ls, t);
  }

  lemma NothingHeldYet()
    ensures InRange(Initial()) && Initial().pushed == [] && Held(Initial()) == []
  {
  }

  lemma CamPulledPushes(s: State)
    ensures CamPulled(s).pushed == s.pushed && !CamPulled(s).cam.CamPush?
  {
  }

  lemma UsbPulledPushes(s: State)
    ensures UsbPulled(s).pushed == s.pushed && UsbPulled(s).cam == s.cam && UsbPulled(s).data == s.data
  {
  }

  // ---------- Shutdown ----------

  /** An upper bound on the steps the camera thread takes once the flag is set. */
  function CamRank(pc: CamPc): nat {
    match pc
    case CamAbsent | CamExited => 0
    case CamTest | CamLock => 1
    case CamGiveBack(_, last) => if last then 1 else 2
    case CamPush(_) => 2
    case CamFailing(_) => 2
    case CamPack(_) => 3
    case CamCapture(_) => 4
    case CamAsleep => 5
  }

  function UsbRank(pc: UsbPc): nat {
    match pc
    case UsbAbsent | UsbExited => 0
    case UsbTest | UsbLock => 1
    case UsbGiveBack(_, last) => if last then 1 else 2
    case UsbFailing(_) => 2
    case UsbSend(_) => 3
    case UsbAsleep => 4
  }

  /** Once the flag is set it stays set and nobody falls asleep again. */
  ghost predicate Stopping(s: State) {
    s.shutdown && s.cam != CamAsleep && s.usb != UsbAsleep && InRange(s)
  }

  lemma CamStopping(n: nat, s: State, l: Label)
    requires Stopping(s) && Enabled(s, l) && OfCam(l)
    ensures var t := Do(n, s, l);
      t.shutdown && t.cam != CamAsleep && CamRank(t.cam) < CamRank(s.cam) && t.usb == s.usb
  {
  }

  lemma UsbStopping(n: nat, s: State, l: Label)
    requires Stopping(s) && Enabled(s, l) && OfUsb(l)
    ensures var t := Do(n, s, l);
      t.shutdown && t.usb != UsbAsleep && UsbRank(t.usb) < UsbRank(s.usb) && t.cam == s.cam
  {
  }

  /** What is left of the USB thread's steps, also when it has yet to be created: the camera
      thread may set the flag before main creates the USB thread. */
  function UsbLeft(s: State): nat {
    UsbRank(s.usb) + if s.main == MainCreateUsb then 1 else 0
  }

  lemma MainStopping(n: nat, s: State, l: Label)
    requires Stopping(s) && Lifecycle(s) && Enabled(s, l) && !OfCam(l) && !OfUsb(l)
    ensures var t := Do(n, s, l);
      t.shutdown && t.cam == s.cam && t.usb != UsbAsleep && UsbLeft(t) <= UsbLeft(s)
  {
  }

  lemma MainStays(n: nat, s: State, l: Label)
    requires Enabled(s, l) && InRange(s) && (OfCam(l) || OfUsb(l))
    ensures Do(n, s, l).main == s.main
  {
  }

  function CamSteps(ls: seq<Label>): nat {
    if ls == [] then 0 else (if OfCam(ls[0]) then 1 else 0) + CamSteps(ls[1..])
  }

  function UsbSteps(ls: seq<Label>): nat {
    if ls == [] then 0 else (if OfUsb(ls[0]) then 1 else 0) + UsbSteps(ls[1..])
  }

  lemma StoppingStep(n: nat, s: State, l: Label)
    requires Stopping(s) && Inv(n, s) && Enabled(s, l)
    ensures var t := Do(n, s, l);
      && Stopping(t) && Inv(n, t)
      && CamRank(t.cam) + (if OfCam(l) then 1 else 0) <= CamRank(s.cam)
      && UsbLeft(t) + (if OfUsb(l) then 1 else 0) <= UsbLeft(s)
  {
    hide Do, CamRank, UsbRank, Enabled, Partition, Lifecycle, Fifo, ErrorCounts, NoLostWakeup;
    StepKeeps(n, s, l);
    if OfCam(l) {
      CamStopping(n, s, l);
      MainStays(n, s, l);
    } else if OfUsb(l) {
      UsbStopping(n, s, l);
      MainStays(n, s, l);
    } else {
      MainStopping(n, s, l);
    }
  }

  /** After the flag is set each step of a thread uses up one of those it has left, and
      nobody falls asleep, along a run of any length. */
  lemma {:induction false} StoppingRun(n: nat, s: State, ls: seq<Label>, t: State)
    requires Stopping(s) && Inv(n, s) && Runs(n, s, ls, t)
    ensures Stopping(t) && Inv(n, t)
    ensures CamSteps(ls) + CamRank(t.cam) <= CamRank(s.cam)
    ensures UsbSteps(ls) + UsbLeft(t) <= UsbLeft(s)
    decreases |ls|
  {
    hide Do, CamRank, UsbLeft, Enabled, Inv, Stopping;
    if ls != [] {
      StoppingStep(n, s, ls[0]);
      StoppingRun(n, Do(n, s, ls[0]), ls[1..], t);
    }
  }

  /** Shutdown terminates: from any reachable state with the flag set, whoever set it and
      whenever, a run holds at most four steps of the camera thread and three of the USB
      thread; a thread that took that many has ended, and no thread that was created and
      has not ended is ever without a step to take. */
  lemma ShutdownEndsThreads(n: nat, s: State, ls: seq<Label>, t: State)
    requires Reachable(n, s) && s.shutdown && Runs(n, s, ls, t)
    ensures CamSteps(ls) <= 4 && UsbSteps(ls) <= 3
    ensures CamSteps(ls) == 4 ==> t.cam == CamExited || t.cam == CamAbsent
    ensures UsbSteps(ls) == 3 ==> t.usb == UsbExited || t.usb == UsbAbsent
    ensures t.cam == CamExited || t.cam == CamAbsent || (Enabled(t, CamMove(t)) && OfCam(CamMove(t)))
    ensures t.usb == UsbExited || t.usb == UsbAbsent || (Enabled(t, UsbMove(t)) && OfUsb(UsbMove(t)))
  {
    hide Reachable, Runs, Enabled, CamMove, UsbMove, Do, Partition, Fifo;
    ReachableInv(n, s);
    StoppingRun(n, s, ls, t);
    if t.cam != CamExited && t.cam != CamAbsent {
      CamCanMove(t);
    }
    if t.usb != UsbExited && t.usb != UsbAbsent {
      UsbCanMove(t);
    }
  }

  /** When the threads have been joined nobody holds a buffer, and all of them are in the
      two queues, each once. */
  lemma JoinedHoldsNothing(n: nat, s: State)
    requires Reachable(n, s) && s.main == MainRelease
    ensures CamHand(s) == [] && UsbHand(s) == []
    ensures multiset(s.empty) + multiset(s.action) == multiset(Ids(n))
  {
    hide Reachable;
    ReachableInv(n, s);
  }

  /** The pool is released at most once, never under a live thread, and when all is done
      exactly as often as it was allocated. */
  lemma ReleasedOnce(n: nat, s: State)
    requires Reachable(n, s)
    ensures s.freed <= 1 && s.freed <= s.allocs
    ensures s.main == MainDone ==> s.freed == s.allocs && !s.pooled
    ensures s.freed == 1 ==> s.main == MainDone && CamHand(s) == [] && UsbHand(s) == []
    ensures s.freed == 1 ==> s.cam == CamAbsent || s.cam == CamExited
    ensures s.freed == 1 ==> s.usb == UsbAbsent || s.usb == UsbExited
  {
    hide Reachable;
    ReachableInv(n, s);
  }
}
