/** Who raises shutdown, and why: what each thread does next and when it stops everything is
    told from the labels of the run alone, for every run from the start. */
module PipelineCauses {
  import opened Wrappers
  import opened PipelineModel
  import opened PipelineProofs
  import opened PipelineTheorems

  // ---------- Reading a run ----------

  /** The last step of the camera thread. */
  function LastCam(ls: seq<Label>): Option<Label> {
    if ls == [] then None
    else if OfCam(ls[|ls| - 1]) then Some(ls[|ls| - 1])
    else LastCam(ls[..|ls| - 1])
  }

  function LastUsb(ls: seq<Label>): Option<Label> {
    if ls == [] then None
    else if OfUsb(ls[|ls| - 1]) then Some(ls[|ls| - 1])
    else LastUsb(ls[..|ls| - 1])
  }

  /** Capture errors since the last frame; a timeout is no error and resets nothing. */
  function ErrorsSinceFrame(ls: seq<Label>): nat {
    if ls == [] then 0
    else
      match ls[|ls| - 1]
      case CamGetFrame(GotFrame) => 0
      case CamGetFrame(CaptureError) => ErrorsSinceFrame(ls[..|ls| - 1]) + 1
      case _ => ErrorsSinceFrame(ls[..|ls| - 1])
  }

  /** Failed sends since the last one that succeeded, disconnections aside. */
  function ErrorsSinceSend(ls: seq<Label>): nat {
    if ls == [] then 0
    else
      match ls[|ls| - 1]
      case UsbSendBytes(Sent) => 0
      case UsbSendBytes(SendError) => ErrorsSinceSend(ls[..|ls| - 1]) + 1
      case _ => ErrorsSinceSend(ls[..|ls| - 1])
  }

  /** A step that asks both threads to stop. */
  predicate AsksToStop(l: Label) {
    l == CamRaise || l == UsbRaise || l == Stop || l == Abort || l == Release
    || l == StartCam(false) || (l.Allocate? && !l.ok)
  }

  // ---------- What a thread does next ----------

  /** Where the camera thread may stand after its last step `l`, the `errors`-th capture error
      since the last frame if it is one. */
  predicate CamAfter(l: Option<Label>, errors: nat, pc: CamPc) {
    match l
    case None => pc == CamAbsent || pc == CamTest
    case Some(CamReadFlag) => pc == CamLock || pc == CamExited
    case Some(CamPull) => pc == CamAsleep || pc == CamLock || pc == CamTest || pc.CamCapture? || pc == CamExited
    case Some(CamGetFrame(GotFrame)) => pc.CamPack?
    case Some(CamGetFrame(Timeout)) => pc.CamGiveBack? && !pc.last
    case Some(CamGetFrame(CaptureError)) => if errors == 3 then pc.CamFailing? else pc.CamGiveBack? && !pc.last
    case Some(CamRaise) => pc.CamGiveBack? && pc.last
    case Some(CamReturn) => pc == CamTest || pc == CamExited
    case Some(CamPackFrame(packed, _)) => if packed.Some? then pc.CamPush? else pc.CamGiveBack? && !pc.last
    case Some(CamPublish) => pc == CamTest
    case Some(_) => pc == CamLock
  }

  /** Where the USB thread may stand after its last step. */
  predicate UsbAfter(l: Option<Label>, errors: nat, pc: UsbPc) {
    match l
    case None => pc == UsbAbsent || pc == UsbTest
    case Some(UsbReadFlag) => pc == UsbLock || pc == UsbExited
    case Some(UsbPull) => pc == UsbAsleep || pc == UsbLock || pc == UsbTest || pc.UsbSend? || pc == UsbExited
    case Some(UsbSendBytes(Sent)) => pc.UsbGiveBack? && !pc.last
    case Some(UsbSendBytes(SendError)) => if errors == 10 then pc.UsbFailing? else pc.UsbGiveBack? && !pc.last
    case Some(UsbSendBytes(Disconnected)) => pc.UsbFailing?
    case Some(UsbRaise) => pc.UsbGiveBack? && pc.last
    case Some(UsbReturn) => pc == UsbTest || pc == UsbExited
    case Some(_) => pc == UsbLock
  }

  ghost predicate Told(ls: seq<Label>, s: State) {
    && s.camErrors == ErrorsSinceFrame(ls) && CamAfter(LastCam(ls), ErrorsSinceFrame(ls), s.cam)
    && s.usbErrors == ErrorsSinceSend(ls) && UsbAfter(LastUsb(ls), ErrorsSinceSend(ls), s.usb)
    && (s.shutdown <==> exists i :: 0 <= i < |ls| && AsksToStop(ls[i]))
  }

  // ---------- One step ----------

  /** The count after one more step. */
  function CountFrame(errors: nat, l: Label): nat {
    match l
    case CamGetFrame(GotFrame) => 0
    case CamGetFrame(CaptureError) => errors + 1
    case _ => errors
  }

  function CountSend(errors: nat, l: Label): nat {
    match l
    case UsbSendBytes(Sent) => 0
    case UsbSendBytes(SendError) => errors + 1
    case _ => errors
  }

  lemma ReadOn(ls: seq<Label>, l: Label)
    ensures LastCam(ls + [l]) == if OfCam(l) then Some(l) else LastCam(ls)
    ensures LastUsb(ls + [l]) == if OfUsb(l) then Some(l) else LastUsb(ls)
    ensures ErrorsSinceFrame(ls + [l]) == CountFrame(ErrorsSinceFrame(ls), l)
    ensures ErrorsSinceSend(ls + [l]) == CountSend(ErrorsSinceSend(ls), l)
  {
    assert (ls + [l])[..|ls|] == ls;
  }

  /** A step of the camera thread. */
  lemma CamStep(n: nat, s: State, l: Label)
    requires InRange(s) && Enabled(s, l) && OfCam(l) && (s.cam.CamCapture? ==> s.camErrors < 3)
    ensures var t := Do(n, s, l);
      && t.camErrors == CountFrame(s.camErrors, l) && CamAfter(Some(l), t.camErrors, t.cam)
      && t.usbErrors == s.usbErrors && (t.usb == s.usb || t.usb == WokenUsb(s.usb))
      && t.shutdown == (s.shutdown || AsksToStop(l))
  {
  }

  lemma UsbStep(n: nat, s: State, l: Label)
    requires InRange(s) && Enabled(s, l) && OfUsb(l) && (s.usb.UsbSend? ==> s.usbErrors < 10)
    ensures var t := Do(n, s, l);
      && t.usbErrors == CountSend(s.usbErrors, l) && UsbAfter(Some(l), t.usbErrors, t.usb)
      && t.camErrors == s.camErrors && (t.cam == s.cam || t.cam == WokenCam(s.cam))
      && t.shutdown == (s.shutdown || AsksToStop(l))
  {
  }

  lemma MainStep(n: nat, s: State, l: Label)
    requires InRange(s) && Enabled(s, l) && !OfCam(l) && !OfUsb(l) && Lifecycle(s)
    ensures var t := Do(n, s, l);
      && t.camErrors == CountFrame(s.camErrors, l) == s.camErrors
      && t.usbErrors == CountSend(s.usbErrors, l) == s.usbErrors
      && (t.cam == s.cam || t.cam == WokenCam(s.cam) || (s.cam == CamAbsent && t.cam == CamTest))
      && (t.usb == s.usb || t.usb == WokenUsb(s.usb) || (s.usb == UsbAbsent && t.usb == UsbTest))
      && t.shutdown == (s.shutdown || AsksToStop(l))
  {
  }

  /** Being woken or created is no step of a thread's own. */
  lemma AfterMoved(l: Option<Label>, errors: nat, pc: CamPc, k: Option<Label>, sent: nat, at: UsbPc)
    requires CamAfter(l, errors, pc) && UsbAfter(k, sent, at)
    ensures CamAfter(l, errors, WokenCam(pc)) && UsbAfter(k, sent, WokenUsb(at))
    ensures pc == CamAbsent ==> CamAfter(l, errors, CamTest)
    ensures at == UsbAbsent ==> UsbAfter(k, sent, UsbTest)
  {
  }

  lemma ToldStep(n: nat, ls: seq<Label>, s: State, l: Label)
    requires Inv(n, s) && Enabled(s, l) && Told(ls, s)
    ensures Told(ls + [l], Do(n, s, l))
  {
    hide Do, Enabled, CamAfter, UsbAfter, LastCam, LastUsb, ErrorsSinceFrame, ErrorsSinceSend, AsksToStop,
      CountFrame, CountSend, Partition, Fifo, NoLostWakeup, Lifecycle, WokenCam, WokenUsb;
    ReadOn(ls, l);
    AfterMoved(LastCam(ls), ErrorsSinceFrame(ls), s.cam, LastUsb(ls), ErrorsSinceSend(ls), s.usb);
    NoOneElse(l);
    if OfCam(l) {
      CamStep(n, s, l);
    } else if OfUsb(l) {
      UsbStep(n, s, l);
    } else {
      MainStep(n, s, l);
    }
    assert forall i :: 0 <= i < |ls| ==> (ls + [l])[i] == ls[i];
    assert (ls + [l])[|ls|] == l;
  }

  lemma NoOneElse(l: Label)
    ensures !(OfCam(l) && OfUsb(l))
    ensures OfCam(l) ==> forall e :: CountSend(e, l) == e
    ensures OfUsb(l) ==> forall e :: CountFrame(e, l) == e
  {
  }

  // ---------- Whole runs ----------

  lemma {:induction false} ToldRun(n: nat, ls: seq<Label>, s: State, ms: seq<Label>, t: State)
    requires Inv(n, s) && Told(ls, s) && Runs(n, s, ms, t)
    ensures Told(ls + ms, t)
    decreases |ms|
  {
    hide Do, Enabled, Inv, Told;
    if ms == [] {
      assert ls + ms == ls;
    } else {
      StepKeeps(n, s, ms[0]);
      ToldStep(n, ls, s, ms[0]);
      ToldRun(n, ls + [ms[0]], Do(n, s, ms[0]), ms[1..], t);
      assert ls + [ms[0]] + ms[1..] == ls + ms;
    }
  }

  lemma ToldFromStart(n: nat, ls: seq<Label>, s: State)
    requires Runs(n, Initial(), ls, s)
    ensures Told(ls, s)
  {
    hide Runs;
    InitialInv(n);
    ToldRun(n, [], Initial(), ls, s);
    assert [] + ls == ls;
  }

  /** Where each thread stands after any run follows from its own last step and the errors
      counted on the labels. */
  lemma ThreadsFollowTheirCalls(n: nat, ls: seq<Label>, s: State)
    requires Runs(n, Initial(), ls, s)
    ensures CamAfter(LastCam(ls), ErrorsSinceFrame(ls), s.cam)
    ensures UsbAfter(LastUsb(ls), ErrorsSinceSend(ls), s.usb)
  {
    hide Runs;
    ToldFromStart(n, ls, s);
  }

  /** The USB thread is about to raise shutdown exactly when its last step was a send that
      found the device disconnected, or the tenth failed one since the last success. */
  lemma UsbRaisesIff(n: nat, ls: seq<Label>, s: State)
    requires Runs(n, Initial(), ls, s)
    ensures s.usb.UsbFailing? <==>
      || LastUsb(ls) == Some(UsbSendBytes(Disconnected))
      || (LastUsb(ls) == Some(UsbSendBytes(SendError)) && ErrorsSinceSend(ls) == 10)
  {
    hide Runs, LastUsb, ErrorsSinceSend, LastCam, ErrorsSinceFrame, CamAfter;
    ToldFromStart(n, ls, s);
  }

  /** The camera thread is about to raise shutdown exactly when its last step was the third
      capture error since the last frame. */
  lemma CamRaisesIff(n: nat, ls: seq<Label>, s: State)
    requires Runs(n, Initial(), ls, s)
    ensures s.cam.CamFailing? <==> LastCam(ls) == Some(CamGetFrame(CaptureError)) && ErrorsSinceFrame(ls) == 3
  {
    hide Runs, LastUsb, ErrorsSinceSend, LastCam, ErrorsSinceFrame, UsbAfter;
    ToldFromStart(n, ls, s);
  }

  /** A thread about to raise shutdown does nothing else first, and raising sets the flag. */
  lemma RaisingIsNext(n: nat, s: State, l: Label)
    requires InRange(s) && Enabled(s, l)
    ensures s.usb.UsbFailing? && OfUsb(l) ==> l == UsbRaise && Do(n, s, l).shutdown
    ensures s.cam.CamFailing? && OfCam(l) ==> l == CamRaise && Do(n, s, l).shutdown
    ensures s.usb.UsbFailing? && !OfUsb(l) && Lifecycle(s) ==> Do(n, s, l).usb == s.usb
    ensures s.cam.CamFailing? && !OfCam(l) && Lifecycle(s) ==> Do(n, s, l).cam == s.cam
  {
  }

  /** The flag is set exactly when a thread raised it, or main stopped, gave up starting or
      cleaned up. */
  lemma ShutdownIff(n: nat, ls: seq<Label>, s: State)
    requires Runs(n, Initial(), ls, s)
    ensures s.shutdown <==> exists i :: 0 <= i < |ls| && AsksToStop(ls[i])
  {
    hide Runs;
    ToldFromStart(n, ls, s);
  }

  lemma {:induction false} RunsSplit(n: nat, s: State, ls: seq<Label>, i: nat, t: State) returns (m: State)
    requires Runs(n, s, ls, t) && i < |ls|
    ensures Runs(n, s, ls[..i], m) && Enabled(m, ls[i])
    decreases i
  {
    hide Do, Enabled;
    if i == 0 {
      m := s;
    } else {
      m := RunsSplit(n, Do(n, s, ls[0]), ls[1..], i - 1, t);
      assert ls[..i][1..] == ls[1..][..i - 1];
    }
  }

  /** On the labels of a run alone: a thread raises shutdown for these reasons and no other. */
  lemma RaisedForCause(n: nat, ls: seq<Label>, s: State, i: nat)
    requires Runs(n, Initial(), ls, s) && i < |ls|
    ensures ls[i] == UsbRaise ==>
      || LastUsb(ls[..i]) == Some(UsbSendBytes(Disconnected))
      || (LastUsb(ls[..i]) == Some(UsbSendBytes(SendError)) && ErrorsSinceSend(ls[..i]) == 10)
    ensures ls[i] == CamRaise ==>
      LastCam(ls[..i]) == Some(CamGetFrame(CaptureError)) && ErrorsSinceFrame(ls[..i]) == 3
  {
    hide Runs, LastUsb, ErrorsSinceSend, LastCam, ErrorsSinceFrame;
    var m := RunsSplit(n, Initial(), ls, i, s);
    UsbRaisesIff(n, ls[..i], m);
    CamRaisesIff(n, ls[..i], m);
  }
}
