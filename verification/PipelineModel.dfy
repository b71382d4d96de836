/** The camera/USB pipeline of the security camera (camera_threads.c, frame_queue.c) as a
    state machine: two threads, the thread that starts and stops them, a pool of buffers,
    two queues, one mutex, one condition variable and a shutdown flag.

    A step is what one thread does between two points where another thread may run: a
    critical section, a read of the flag, or one blocking call outside the mutex.  Steps
    carry what their calls returned, so a run is a list of labels. */
module PipelineModel {
  import opened Wrappers
  import opened Sequences

  type Packet = seq<bv8>

  /** Where the camera thread is.  `last` marks the buffer that goes back before exit. */
  datatype CamPc =
    | CamAbsent
    | CamTest
    | CamLock
    | CamAsleep
    | CamCapture(buf: nat)
    | CamFailing(buf: nat)
    | CamGiveBack(buf: nat, last: bool)
    | CamPack(buf: nat)
    | CamPush(buf: nat)
    | CamExited

  datatype UsbPc =
    | UsbAbsent
    | UsbTest
    | UsbLock
    | UsbAsleep
    | UsbSend(buf: nat)
    | UsbFailing(buf: nat)
    | UsbGiveBack(buf: nat, last: bool)
    | UsbExited

  datatype MainPc =
    | MainAlloc
    | MainCreateCam
    | MainCreateUsb
    | MainAbort
    | MainRunning
    | MainJoinCam(usbToo: bool)
    | MainJoinUsb
    | MainRelease
    | MainDone

  datatype State = State(
    empty: seq<nat>, action: seq<nat>, shutdown: bool,
    cam: CamPc, camErrors: nat,
    usb: UsbPc, usbErrors: nat,
    main: MainPc,
    data: seq<Packet>,       // contents of the buffers of the pool
    pooled: bool,            // the pool is allocated
    allocs: nat,             // how often it was allocated
    freed: nat,              // how often it was released
    pushed: seq<Packet>,     // packets the camera put on the action queue
    attempted: seq<Packet>)  // packets handed to usb_transport_send_bytes

  datatype Capture = GotFrame | Timeout | CaptureError

  datatype SendResult = Sent | SendError | Disconnected

  datatype Label =
    | CamReadFlag | CamPull | CamGetFrame(capture: Capture) | CamRaise | CamReturn
    | CamPackFrame(packed: Option<Packet>, junk: Packet) | CamPublish | CamSpurious
    | UsbReadFlag | UsbPull | UsbSendBytes(result: SendResult) | UsbRaise | UsbReturn | UsbSpurious
    | Allocate(ok: bool, memory: nat -> Packet) | StartCam(ok: bool) | StartUsb(ok: bool)
    | Abort | Stop | JoinCam | JoinUsb | Release

  predicate OfCam(l: Label) {
    l.CamReadFlag? || l.CamPull? || l.CamGetFrame? || l.CamRaise? || l.CamReturn? || l.CamPackFrame?
    || l.CamPublish? || l.CamSpurious?
  }

  predicate OfUsb(l: Label) {
    l.UsbReadFlag? || l.UsbPull? || l.UsbSendBytes? || l.UsbRaise? || l.UsbReturn? || l.UsbSpurious?
  }

  const CAM_ERROR_LIMIT := 3
  const USB_ERROR_LIMIT := 10

  predicate Enabled(s: State, l: Label) {
    match l
    case CamReadFlag => s.cam == CamTest
    case CamPull => s.cam == CamLock
    case CamGetFrame(_) => s.cam.CamCapture?
    case CamRaise => s.cam.CamFailing?
    case CamReturn => s.cam.CamGiveBack?
    case CamPackFrame(_, _) => s.cam.CamPack?
    case CamPublish => s.cam.CamPush?
    case CamSpurious => s.cam == CamAsleep
    case UsbReadFlag => s.usb == UsbTest
    case UsbPull => s.usb == UsbLock
    case UsbSendBytes(_) => s.usb.UsbSend?
    case UsbRaise => s.usb.UsbFailing?
    case UsbReturn => s.usb.UsbGiveBack?
    case UsbSpurious => s.usb == UsbAsleep
    case Allocate(_, _) => s.main == MainAlloc
    case StartCam(_) => s.main == MainCreateCam
    case StartUsb(_) => s.main == MainCreateUsb
    case Abort => s.main == MainAbort
    case Stop => s.main == MainRunning
    case JoinCam => s.main.MainJoinCam? && s.cam == CamExited
    case JoinUsb => s.main == MainJoinUsb && s.usb == UsbExited
    case Release => s.main == MainRelease
  }

  // ---------- Waking ----------

  /** What a wake-up does to a waiting thread; only one thread can be waiting for another. */
  function WokenCam(pc: CamPc): CamPc {
    if pc == CamAsleep then CamLock else pc
  }

  function WokenUsb(pc: UsbPc): UsbPc {
    if pc == UsbAsleep then UsbLock else pc
  }

  /** Set the flag and broadcast, in one critical section. */
  function Shutdown(s: State): State {
    s.(shutdown := true, cam := WokenCam(s.cam), usb := WokenUsb(s.usb))
  }

  // ---------- Steps of the camera thread ----------

  /** The section that waits for an empty buffer, from taking the mutex to releasing it
      or to falling asleep. */
  function CamPulled(s: State): State {
    if s.empty == [] && !s.shutdown then s.(cam := CamAsleep)
    else if s.shutdown then s.(cam := CamExited)
    else if s.empty == [] then s.(cam := CamTest)
    else s.(empty := s.empty[1..], cam := CamCapture(s.empty[0]))
  }

  function CamCaptured(s: State, c: Capture): State
    requires s.cam.CamCapture?
  {
    match c
    case GotFrame => s.(camErrors := 0, cam := CamPack(s.cam.buf))
    case Timeout => s.(cam := CamGiveBack(s.cam.buf, false))
    case CaptureError =>
      s.(camErrors := s.camErrors + 1,
         cam := if s.camErrors + 1 >= CAM_ERROR_LIMIT then CamFailing(s.cam.buf)
                else CamGiveBack(s.cam.buf, false))
  }

  /** mjpeg_pack_frame writes into the buffer in hand, whether it succeeds or not. */
  function CamPacked(s: State, packed: Option<Packet>, junk: Packet): State
    requires s.cam.CamPack? && s.cam.buf < |s.data|
  {
    match packed
    case Some(p) => s.(data := s.data[s.cam.buf := p], cam := CamPush(s.cam.buf))
    case None => s.(data := s.data[s.cam.buf := junk], cam := CamGiveBack(s.cam.buf, false))
  }

  /** The third error since the last frame: stop everything, then give the buffer back. */
  function CamRaised(s: State): State
    requires s.cam.CamFailing?
  {
    Shutdown(s).(cam := CamGiveBack(s.cam.buf, true))
  }

  function CamReturned(s: State): State
    requires s.cam.CamGiveBack?
  {
    s.(empty := s.empty + [s.cam.buf], cam := if s.cam.last then CamExited else CamTest)
  }

  function CamPublished(s: State): State
    requires s.cam.CamPush? && s.cam.buf < |s.data|
  {
    s.(action := s.action + [s.cam.buf], cam := CamTest, usb := WokenUsb(s.usb),
       pushed := s.pushed + [s.data[s.cam.buf]])
  }

  // ---------- Steps of the USB thread ----------

  function UsbPulled(s: State): State {
    if s.action == [] && !s.shutdown then s.(usb := UsbAsleep)
    else if s.shutdown then s.(usb := UsbExited)
    else if s.action == [] then s.(usb := UsbTest)
    else s.(action := s.action[1..], usb := UsbSend(s.action[0]))
  }

  function UsbSent(s: State, r: SendResult): State
    requires s.usb.UsbSend? && s.usb.buf < |s.data|
  {
    var t := s.(attempted := s.attempted + [s.data[s.usb.buf]]);
    match r
    case Sent => t.(usbErrors := 0, usb := UsbGiveBack(s.usb.buf, false))
    case SendError =>
      t.(usbErrors := s.usbErrors + 1,
         usb := if s.usbErrors + 1 >= USB_ERROR_LIMIT then UsbFailing(s.usb.buf)
                else UsbGiveBack(s.usb.buf, false))
    case Disconnected => t.(usb := UsbFailing(s.usb.buf))
  }

  function UsbRaised(s: State): State
    requires s.usb.UsbFailing?
  {
    Shutdown(s).(usb := UsbGiveBack(s.usb.buf, true))
  }

  /** The buffer goes back to the camera: with a signal, except on the way out. */
  function UsbReturned(s: State): State
    requires s.usb.UsbGiveBack?
  {
    s.(empty := s.empty + [s.usb.buf],
       usb := if s.usb.last then UsbExited else UsbTest,
       cam := if s.usb.last then s.cam else WokenCam(s.cam))
  }

  // ---------- All steps ----------

  /** Buffers named by a program counter exist. */
  predicate InRange(s: State) {
    && (s.cam.CamPack? || s.cam.CamPush? ==> s.cam.buf < |s.data|)
    && (s.usb.UsbSend? ==> s.usb.buf < |s.data|)
  }

  /** The state after label `l`, in a pool of `n` buffers. */
  function Do(n: nat, s: State, l: Label): State
    requires Enabled(s, l) && InRange(s)
  {
    match l
    case CamReadFlag => s.(cam := if s.shutdown then CamExited else CamLock)
    case CamPull => CamPulled(s)
    case CamGetFrame(c) => CamCaptured(s, c)
    case CamRaise => CamRaised(s)
    case CamReturn => CamReturned(s)
    case CamPackFrame(p, junk) => CamPacked(s, p, junk)
    case CamPublish => CamPublished(s)
    case CamSpurious => s.(cam := CamLock)
    case UsbReadFlag => s.(usb := if s.shutdown then UsbExited else UsbLock)
    case UsbPull => UsbPulled(s)
    case UsbSendBytes(r) => UsbSent(s, r)
    case UsbRaise => UsbRaised(s)
    case UsbReturn => UsbReturned(s)
    case UsbSpurious => s.(usb := UsbLock)
    case Allocate(ok, memory) => Allocated(n, s, ok, memory)
    case StartCam(ok) =>
      if ok then s.(cam := CamTest, main := MainCreateUsb) else Released(s)
    case StartUsb(ok) =>
      if ok then s.(usb := UsbTest, main := MainRunning) else s.(main := MainAbort)
    case Abort => Shutdown(s).(main := MainJoinCam(false))
    case Stop => Shutdown(s).(main := MainJoinCam(true))
    case JoinCam => s.(main := if s.main.usbToo then MainJoinUsb else MainRelease)
    case JoinUsb => s.(main := MainRelease)
    case Release => Released(s)
  }

  /** frame_queue_allocate_buffers, and the cleanup when it fails. */
  function Allocated(n: nat, s: State, ok: bool, memory: nat -> Packet): State {
    if ok then s.(empty := Ids(n), data := seq(n, i requires 0 <= i < n => memory(i)),
                  pooled := true, allocs := s.allocs + 1, main := MainCreateCam)
    else Shutdown(s).(main := MainDone)
  }

  /** frame_queue_cleanup. */
  function Released(s: State): State {
    Shutdown(s).(main := MainDone, empty := [], action := [], data := [],
                 pooled := false, freed := if s.pooled then s.freed + 1 else s.freed)
  }

  function Initial(): State {
    State([], [], false, CamAbsent, 0, UsbAbsent, 0, MainAlloc, [], false, 0, 0, [], [])
  }
}
