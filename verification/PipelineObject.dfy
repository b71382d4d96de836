/** The pipeline as the C code holds it: buffers in the heap, two linked queues, and a
    buffer pointer in each thread.  Every method is one step of one thread, and is proved
    to move the abstract state as the machine of PipelineModel does. */
module PipelineObject {
  import opened Wrappers
  import opened Sequences
  import opened PipelineModel
  import opened PipelineProofs
  import opened PipelineTheorems
  import opened FrameQueue

  ghost function IdsOf(q: seq<FrameBuffer>): (r: seq<nat>)
    reads q`id
    ensures |r| == |q| && forall i :: 0 <= i < |q| ==> r[i] == q[i].id
  {
    if q == [] then [] else [q[0].id] + IdsOf(q[1..])
  }

  ghost function DataOf(q: seq<FrameBuffer>): (r: seq<Packet>)
    reads q`data
    ensures |r| == |q| && forall i :: 0 <= i < |q| ==> r[i] == q[i].data
  {
    if q == [] then [] else [q[0].data] + DataOf(q[1..])
  }

  /** Buffer `i` of the pool has id `i`. */
  ghost predicate Numbered(pool: seq<FrameBuffer>)
    reads pool`id
  {
    forall i :: 0 <= i < |pool| ==> pool[i].id == i
  }

  ghost predicate Within(q: seq<FrameBuffer>, pool: seq<FrameBuffer>) {
    forall i :: 0 <= i < |q| ==> q[i] in pool
  }

  /** Label `l` leads from `s` to `t`. */
  ghost predicate Moves(n: nat, s: State, l: Label, t: State) {
    Enabled(s, l) && InRange(s) && Do(n, s, l) == t
  }

  lemma IdIn(q: seq<FrameBuffer>, x: FrameBuffer)
    ensures x in q ==> x.id in IdsOf(q)
  {
    if x in q {
      var i :| 0 <= i < |q| && q[i] == x;
      assert IdsOf(q)[i] == x.id;
    }
  }

  lemma IdsOfPush(q: seq<FrameBuffer>, x: FrameBuffer)
    ensures IdsOf(q + [x]) == IdsOf(q) + [x.id]
  {
    hide IdsOf;
  }

  lemma WithinPush(q: seq<FrameBuffer>, x: FrameBuffer, pool: seq<FrameBuffer>)
    requires Within(q, pool) && x in pool
    ensures Within(q + [x], pool)
  {
  }

  lemma InOnePlace(n: nat, s: State, b: nat)
    requires Partition(n, s)
    ensures multiset(s.empty)[b] + multiset(s.action)[b] + multiset(CamHand(s))[b] + multiset(UsbHand(s))[b] <= 1
  {
    hide CamHand, UsbHand, Ids;
    IdsOnce(n, b);
    assert Everywhere(s)[b] <= 1;
  }

  lemma HeldData(pool: seq<FrameBuffer>, buf: FrameBuffer)
    requires Numbered(pool) && buf in pool
    ensures buf.id < |pool| && DataOf(pool)[buf.id] == buf.data
  {
    hide DataOf;
  }

  lemma WokenHolds(cam: CamPc, usb: UsbPc)
    ensures CamHolds(WokenCam(cam)) == CamHolds(cam) && UsbHolds(WokenUsb(usb)) == UsbHolds(usb)
  {
  }

  /** A step leads where the state machine says, and the invariant holds there. */
  lemma StepIs(n: nat, s: State, l: Label)
    requires Inv(n, s) && Enabled(s, l)
    ensures InRange(s) && Moves(n, s, l, Do(n, s, l)) && Inv(n, Do(n, s, l))
  {
    hide Inv, Do, Enabled;
    StepKeeps(n, s, l);
  }

  lemma NothingAllocated(n: nat, s: State)
    requires Inv(n, s) && s.main == MainAlloc
    ensures !s.pooled && s.empty == s.action == [] && s.cam == CamAbsent && s.usb == UsbAbsent
    ensures CamHolds(s.cam) == UsbHolds(s.usb) == []
  {
    assert |Everywhere(s)| == 0;
  }

  lemma NothingHeld(n: nat, s: State)
    requires Inv(n, s) && (s.main == MainRelease || s.main == MainCreateCam)
    ensures s.cam != CamAsleep && s.usb != UsbAsleep
    ensures CamHolds(s.cam) == UsbHolds(s.usb) == []
    ensures CamHolds(WokenCam(s.cam)) == UsbHolds(WokenUsb(s.usb)) == []
  {
    hide Partition, DataOk, Fifo, ErrorCounts, InFlightOk;
  }

  lemma NoBuffers()
    ensures IdsOf([]) == [] && DataOf([]) == [] && Numbered([]) && Within([], [])
  {
  }

  lemma NewPool(buffers: seq<FrameBuffer>, memory: nat -> Packet)
    requires forall k :: 0 <= k < |buffers| ==> buffers[k].id == k && buffers[k].data == memory(k)
    ensures IdsOf(buffers) == Ids(|buffers|) && Numbered(buffers) && Within(buffers, buffers)
    ensures DataOf(buffers) == seq(|buffers|, i requires 0 <= i < |buffers| => memory(i))
    ensures IdsOf([]) == [] && Within([], buffers)
  {
    NewIds(buffers);
    NewData(buffers, memory);
  }

  lemma {:induction false} NewIds(buffers: seq<FrameBuffer>)
    requires forall k :: 0 <= k < |buffers| ==> buffers[k].id == k
    ensures IdsOf(buffers) == Ids(|buffers|) && IdsOf([]) == []
  {
    hide IdsOf;
  }

  lemma {:induction false} NewData(buffers: seq<FrameBuffer>, memory: nat -> Packet)
    requires forall k :: 0 <= k < |buffers| ==> buffers[k].data == memory(k)
    ensures DataOf(buffers) == seq(|buffers|, i requires 0 <= i < |buffers| => memory(i))
  {
    hide DataOf;
    assert |DataOf(buffers)| == |buffers|;
  }

  lemma ReleasedKeeps(n: nat, s: State)
    requires Inv(n, s) && (s.main == MainRelease || s.main == MainCreateCam)
    ensures Inv(n, Released(s)) && CamHolds(WokenCam(s.cam)) == UsbHolds(WokenUsb(s.usb)) == []
  {
    hide Inv, Released, Moves;
    NothingHeld(n, s);
    var l := if s.main == MainRelease then Release else StartCam(false);
    StepIs(n, s, l);
    ReleaseIs(n, s, l);
  }

  lemma ReleaseIs(n: nat, s: State, l: Label)
    requires (l == Release || l == StartCam(false)) && Enabled(s, l) && InRange(s)
    ensures Do(n, s, l) == Released(s)
  {
  }

  lemma ReleaseMoves(n: nat, s: State)
    requires Inv(n, s) && s.main == MainRelease
    ensures Moves(n, s, Release, Released(s))
  {
    hide Inv, Do, Released;
    StepIs(n, s, Release);
    ReleaseIs(n, s, Release);
  }

  lemma NotYetStarted(n: nat, s: State)
    requires Inv(n, s) && s.main == MainCreateCam
    ensures s.cam == CamAbsent && CamHolds(s.cam) == CamHolds(CamTest) == []
  {
  }

  lemma NoUsbYet(n: nat, s: State)
    requires Inv(n, s) && s.main == MainCreateUsb
    ensures s.usb == UsbAbsent && UsbHolds(s.usb) == UsbHolds(UsbTest) == []
  {
  }

  /** The queues are forgotten. */
  method ClearBoth(a: Queue, b: Queue)
    requires a != b
    modifies a, b
    ensures a.Valid() && b.Valid() && a.nodes == b.nodes == []
  {
    a.Clear();
    b.Clear();
  }

  /** Pulling from one queue leaves a disjoint one alone. */
  method PullApart(q: Queue, other: Queue, ghost pool: seq<FrameBuffer>) returns (buf: FrameBuffer)
    requires q != other && q.Valid() && other.Valid() && q.nodes != [] && Within(q.nodes, pool)
    requires forall x :: x in q.nodes ==> x !in other.nodes
    modifies q, q.nodes`next
    ensures q.Valid() && other.Valid() && Within(q.nodes, pool) && buf in pool
    ensures old(IdsOf(q.nodes)) == [buf.id] + IdsOf(q.nodes) && IdsOf(other.nodes) == old(IdsOf(other.nodes))
    ensures DataOf(pool) == old(DataOf(pool)) && Numbered(pool) == old(Numbered(pool))
  {
    hide IdsOf, DataOf, Numbered, Queue.Valid, Queue.IsEmpty;
    var head := q.Pull();
    buf := head;
    assert forall i :: 0 <= i < |other.nodes| ==> other.nodes[i] !in old(q.nodes);
  }

  /** Pushing a buffer that is in neither queue leaves the other one alone. */
  method PushApart(q: Queue, other: Queue, buf: FrameBuffer, ghost pool: seq<FrameBuffer>)
    requires q != other && q.Valid() && other.Valid() && Within(q.nodes, pool) && buf in pool
    requires forall x :: x in q.nodes ==> x !in other.nodes
    requires buf !in q.nodes && buf !in other.nodes
    modifies q, q.nodes`next, buf`next
    ensures q.Valid() && other.Valid() && Within(q.nodes, pool)
    ensures IdsOf(q.nodes) == old(IdsOf(q.nodes)) + [buf.id] && IdsOf(other.nodes) == old(IdsOf(other.nodes))
    ensures DataOf(pool) == old(DataOf(pool)) && Numbered(pool) == old(Numbered(pool))
  {
    hide IdsOf, DataOf, Numbered, Within, Queue.Valid, Queue.IsEmpty;
    q.Push(buf);
    assert forall i :: 0 <= i < |other.nodes| ==> other.nodes[i] !in old(q.nodes) && other.nodes[i] != buf;
    IdsOfPush(old(q.nodes), buf);
    WithinPush(old(q.nodes), buf, pool);
  }

  class Pipeline {
    const n: nat // number of buffers, MAX_QUEUE_DEPTH

    var pool: seq<FrameBuffer> // g_buffer_pool, empty when NULL
    const empty: Queue         // g_empty_queue
    const action: Queue        // g_action_queue
    var shutdown: bool         // g_shutdown_requested

    var cam: CamPc
    var camBuf: FrameBuffer? // `buffer` of camera_thread_func
    var camErrors: nat
    var usb: UsbPc
    var usbBuf: FrameBuffer? // `buffer` of usb_thread_func
    var usbErrors: nat
    var main: MainPc

    ghost var allocs: nat
    ghost var freed: nat
    ghost var pushed: seq<Packet>
    ghost var attempted: seq<Packet>

    ghost function Abs(): State
      reads this, empty, action, empty.nodes, action.nodes, pool
    {
      State(IdsOf(empty.nodes), IdsOf(action.nodes), shutdown, cam, camErrors, usb, usbErrors, main,
            DataOf(pool), pool != [], allocs, freed, pushed, attempted)
    }

    /** Buffers are where their ids say; queues and hands hold buffers of the pool. */
    ghost predicate Shape()
      reads this, empty, action, empty.nodes, action.nodes, pool
    {
      && n > 0 && empty != action && empty.Valid() && action.Valid()
      && (pool != [] ==> |pool| == n)
      && Numbered(pool) && Within(empty.nodes, pool) && Within(action.nodes, pool)
      && (CamHolds(cam) != [] ==> camBuf != null && camBuf in pool && CamHolds(cam) == [camBuf.id])
      && (UsbHolds(usb) != [] ==> usbBuf != null && usbBuf in pool && UsbHolds(usb) == [usbBuf.id])
    }

    ghost predicate Valid()
      reads this, empty, action, empty.nodes, action.nodes, pool
    {
      Shape() && Inv(n, Abs())
    }

    constructor (n: nat)
      requires n > 0
      ensures Valid() && this.n == n && Abs() == Initial() && fresh(empty) && fresh(action) && pool == []
    {
      hide Inv, IdsOf, DataOf, Numbered, Within, Queue.Valid, Queue.IsEmpty;
      this.n := n;
      pool, shutdown, main := [], false, MainAlloc;
      empty := new Queue();
      action := new Queue();
      cam, camBuf, camErrors := CamAbsent, null, 0;
      usb, usbBuf, usbErrors := UsbAbsent, null, 0;
      allocs, freed, pushed, attempted := 0, 0, [], [];
      new;
      NoBuffers();
      InitialInv(n);
    }

    /** No buffer is in both queues, or in a queue and a hand, or in both hands. */
    lemma Apart()
      requires Valid()
      ensures forall x :: x in empty.nodes ==> x !in action.nodes
      ensures CamHolds(cam) != [] ==> camBuf !in empty.nodes && camBuf !in action.nodes
      ensures UsbHolds(usb) != [] ==> usbBuf !in empty.nodes && usbBuf !in action.nodes
    {
      hide CamHolds, UsbHolds, Queue.Valid, Within, Numbered, IdsOf, DataOf, Partition;
      forall x | x in empty.nodes || x in action.nodes
        ensures !(x in empty.nodes && x in action.nodes)
        ensures CamHolds(cam) != [] && camBuf == x ==> x !in empty.nodes && x !in action.nodes
        ensures UsbHolds(usb) != [] && usbBuf == x ==> x !in empty.nodes && x !in action.nodes
      {
        InOnePlace(n, Abs(), x.id);
        IdIn(empty.nodes, x);
        IdIn(action.nodes, x);
      }
    }

    // ---------- Camera thread ----------

    /** The test of the loop of camera_thread_func. */
    method CamTestFlag()
      requires Valid() && cam == CamTest
      modifies this`cam
      ensures Valid() && Moves(n, old(Abs()), CamReadFlag, Abs())
    {
      hide Moves, Inv, Queue.Valid, Queue.IsEmpty, Within, Numbered, IdsOf, DataOf, UsbHolds;
      StepIs(n, Abs(), CamReadFlag);
      cam := if shutdown then CamExited else CamLock;
      assert Abs() == old(Abs()).(cam := cam);
    }

    /** pthread_cond_wait may return without a signal. */
    method CamWake()
      requires Valid() && cam == CamAsleep
      modifies this`cam
      ensures Valid() && Moves(n, old(Abs()), CamSpurious, Abs())
    {
      hide Moves, Inv, Queue.Valid, Queue.IsEmpty, Within, Numbered, IdsOf, DataOf, UsbHolds;
      StepIs(n, Abs(), CamSpurious);
      cam := CamLock;
      assert Abs() == old(Abs()).(cam := CamLock);
    }

    /** The section that waits for an empty buffer, up to sleeping or unlocking. */
    method PullEmpty()
      requires Valid() && cam == CamLock
      modifies this`cam, this`camBuf, empty, empty.nodes`next
      ensures Valid() && Moves(n, old(Abs()), CamPull, Abs())
    {
      hide Moves, Inv, Within, Queue.Valid, Numbered, IdsOf, DataOf, UsbHolds;
      StepIs(n, Abs(), CamPull);
      assert Do(n, Abs(), CamPull) == CamPulled(Abs());
      hide Do, Enabled;
      if empty.IsEmpty() && !shutdown {
        cam := CamAsleep;
        assert Abs() == CamPulled(old(Abs()));
      } else if shutdown {
        cam := CamExited;
        assert Abs() == CamPulled(old(Abs()));
      } else {
        TakeEmpty();
      }
    }

    method TakeEmpty()
      requires Valid() && cam == CamLock && !empty.IsEmpty() && !shutdown
      modifies this`cam, this`camBuf, empty, empty.nodes`next
      ensures Shape() && Abs() == CamPulled(old(Abs()))
    {
      hide Moves, Inv, Within, Queue.Valid, Queue.IsEmpty, Numbered, IdsOf, DataOf, UsbHolds;
      Apart();
      camBuf := PullApart(empty, action, pool);
      cam := CamCapture(camBuf.id);
      assert Abs() == CamPulled(old(Abs()));
    }

    /** camera_get_frame and the counting of its errors. */
    method GetFrame(capture: Capture)
      requires Valid() && cam.CamCapture?
      modifies this`cam, this`camErrors
      ensures Valid() && Moves(n, old(Abs()), CamGetFrame(capture), Abs())
    {
      hide Moves, Inv, Queue.Valid, Within, Numbered, IdsOf, DataOf, UsbHolds, WokenUsb, WokenCam;
      StepIs(n, Abs(), CamGetFrame(capture));
      var pc, errors := cam, camErrors;
      match capture {
        case Timeout =>
          pc := CamGiveBack(pc.buf, false);
        case CaptureError =>
          errors := errors + 1;
          pc := if errors >= CAM_ERROR_LIMIT then CamFailing(pc.buf) else CamGiveBack(pc.buf, false);
        case GotFrame =>
          pc, errors := CamPack(pc.buf), 0;
      }
      cam, camErrors := pc, errors;
      assert Abs() == CamCaptured(old(Abs()), capture);
    }

    /** Set the flag and wake everybody, from the camera thread. */
    method CamRaiseShutdown()
      requires Valid() && cam.CamFailing?
      modifies this`shutdown, this`cam, this`usb
      ensures Valid() && Moves(n, old(Abs()), CamRaise, Abs())
    {
      hide Moves, Inv, Queue.Valid, Within, Numbered, IdsOf, DataOf, UsbHolds, WokenUsb, WokenCam;
      StepIs(n, Abs(), CamRaise);
      WokenHolds(cam, usb);
      shutdown := true;
      cam, usb := CamGiveBack(cam.buf, true), WokenUsb(usb); // pthread_cond_broadcast
      assert Abs() == CamRaised(old(Abs()));
    }

    /** Give the buffer in hand back to the empty queue, without a signal. */
    method CamReturnBuffer()
      requires Valid() && cam.CamGiveBack?
      modifies this`cam, empty, empty.nodes`next, camBuf`next
      ensures Valid() && Moves(n, old(Abs()), CamReturn, Abs())
    {
      hide Moves, Inv, Within, Queue.Valid, Numbered, IdsOf, DataOf, UsbHolds;
      StepIs(n, Abs(), CamReturn);
      assert Do(n, Abs(), CamReturn) == CamReturned(Abs());
      hide Do, Enabled;
      Apart();
      PushApart(empty, action, camBuf, pool);
      cam := if cam.last then CamExited else CamTest;
      assert Abs() == CamReturned(old(Abs()));
    }

    method WriteBuffer(data: Packet)
      requires Numbered(pool) && camBuf != null && camBuf in pool
      modifies camBuf`data
      ensures camBuf.id < |pool| && DataOf(pool) == old(DataOf(pool))[camBuf.id := data]
    {
      hide DataOf;
      camBuf.data := data;
    }

    /** mjpeg_pack_frame into the buffer in hand. */
    method PackFrame(packed: Option<Packet>, junk: Packet)
      requires Valid() && cam.CamPack?
      modifies this`cam, camBuf`data
      ensures Valid() && Moves(n, old(Abs()), CamPackFrame(packed, junk), Abs())
    {
      hide Moves, Inv, Queue.Valid, Within, Numbered, IdsOf, DataOf, UsbHolds, WokenUsb, WokenCam;
      StepIs(n, Abs(), CamPackFrame(packed, junk));
      WriteBuffer(packed.GetOr(junk));
      cam := if packed.Some? then CamPush(cam.buf) else CamGiveBack(cam.buf, false);
      assert Abs() == CamPacked(old(Abs()), packed, junk);
    }

    /** Append the filled buffer to the action queue and signal. */
    method PublishFrame()
      requires Valid() && cam.CamPush?
      modifies this`cam, this`usb, this`pushed, action, action.nodes`next, camBuf`next
      ensures Valid() && Moves(n, old(Abs()), CamPublish, Abs())
    {
      hide Moves, Inv, Queue.Valid, Within, Numbered, IdsOf, DataOf, UsbHolds, WokenUsb, WokenCam;
      StepIs(n, Abs(), CamPublish);
      assert Do(n, Abs(), CamPublish) == CamPublished(Abs());
      hide Do, Enabled;
      WokenHolds(cam, usb);
      Apart();
      HeldData(pool, camBuf);
      PushApart(action, empty, camBuf, pool);
      cam, usb, pushed := CamTest, WokenUsb(usb), pushed + [camBuf.data]; // pthread_cond_signal
      assert Abs() == CamPublished(old(Abs()));
    }

    // ---------- USB thread ----------

    /** The test of the loop of usb_thread_func. */
    method UsbTestFlag()
      requires Valid() && usb == UsbTest
      modifies this`usb
      ensures Valid() && Moves(n, old(Abs()), UsbReadFlag, Abs())
    {
      hide Moves, Inv, Queue.Valid, Queue.IsEmpty, Within, Numbered, IdsOf, DataOf, CamHolds;
      StepIs(n, Abs(), UsbReadFlag);
      usb := if shutdown then UsbExited else UsbLock;
      assert Abs() == old(Abs()).(usb := usb);
    }

    /** pthread_cond_wait may return without a signal. */
    method UsbWake()
      requires Valid() && usb == UsbAsleep
      modifies this`usb
      ensures Valid() && Moves(n, old(Abs()), UsbSpurious, Abs())
    {
      hide Moves, Inv, Queue.Valid, Queue.IsEmpty, Within, Numbered, IdsOf, DataOf, CamHolds;
      StepIs(n, Abs(), UsbSpurious);
      usb := UsbLock;
      assert Abs() == old(Abs()).(usb := UsbLock);
    }

    /** The section that waits for a filled buffer, up to sleeping or unlocking. */
    method PullAction()
      requires Valid() && usb == UsbLock
      modifies this`usb, this`usbBuf, action, action.nodes`next
      ensures Valid() && Moves(n, old(Abs()), UsbPull, Abs())
    {
      hide Moves, Inv, Queue.Valid, Within, Numbered, IdsOf, DataOf, CamHolds, WokenCam, WokenUsb;
      StepIs(n, Abs(), UsbPull);
      assert Do(n, Abs(), UsbPull) == UsbPulled(Abs());
      hide Do, Enabled;
      if action.IsEmpty() && !shutdown {
        usb := UsbAsleep;
        assert Abs() == UsbPulled(old(Abs()));
      } else if shutdown {
        usb := UsbExited;
        assert Abs() == UsbPulled(old(Abs()));
      } else {
        TakeFilled();
      }
    }

    method TakeFilled()
      requires Valid() && usb == UsbLock && !action.IsEmpty() && !shutdown
      modifies this`usb, this`usbBuf, action, action.nodes`next
      ensures Shape() && Abs() == UsbPulled(old(Abs()))
    {
      hide Moves, Inv, Queue.Valid, Queue.IsEmpty, Within, Numbered, IdsOf, DataOf, CamHolds, WokenCam, WokenUsb;
      Apart();
      usbBuf := PullApart(action, empty, pool);
      usb := UsbSend(usbBuf.id);
      assert Abs() == UsbPulled(old(Abs()));
    }

    /** usb_transport_send_bytes and the counting of its errors. */
    method SendBytes(result: SendResult)
      requires Valid() && usb.UsbSend?
      modifies this`usb, this`usbErrors, this`attempted
      ensures Valid() && Moves(n, old(Abs()), UsbSendBytes(result), Abs())
    {
      hide Moves, Inv, Queue.Valid, Within, Numbered, IdsOf, DataOf, CamHolds, WokenCam, WokenUsb;
      StepIs(n, Abs(), UsbSendBytes(result));
      assert Do(n, Abs(), UsbSendBytes(result)) == UsbSent(Abs(), result);
      hide Do, Enabled;
      HeldData(pool, usbBuf);
      var pc, errors := usb, usbErrors;
      match result {
        case Disconnected =>
          pc := UsbFailing(pc.buf);
        case SendError =>
          errors := errors + 1;
          pc := if errors >= USB_ERROR_LIMIT then UsbFailing(pc.buf) else UsbGiveBack(pc.buf, false);
        case Sent =>
          pc, errors := UsbGiveBack(pc.buf, false), 0;
      }
      usb, usbErrors, attempted := pc, errors, attempted + [usbBuf.data];
      assert Abs() == UsbSent(old(Abs()), result);
    }

    /** Set the flag and wake everybody, from the USB thread. */
    method UsbRaiseShutdown()
      requires Valid() && usb.UsbFailing?
      modifies this`shutdown, this`cam, this`usb
      ensures Valid() && Moves(n, old(Abs()), UsbRaise, Abs())
    {
      hide Moves, Inv, Queue.Valid, Within, Numbered, IdsOf, DataOf, CamHolds, WokenCam, WokenUsb;
      StepIs(n, Abs(), UsbRaise);
      WokenHolds(cam, usb);
      shutdown := true;
      cam, usb := WokenCam(cam), UsbGiveBack(usb.buf, true); // pthread_cond_broadcast
      assert Abs() == UsbRaised(old(Abs()));
    }

    /** Give the buffer in hand back to the empty queue: with a signal, except on the way
        out. */
    method UsbReturnBuffer()
      requires Valid() && usb.UsbGiveBack?
      modifies this`usb, this`cam, empty, empty.nodes`next, usbBuf`next
      ensures Valid() && Moves(n, old(Abs()), UsbReturn, Abs())
    {
      hide Moves, Inv, Shape, IdsOf, DataOf;
      StepIs(n, Abs(), UsbReturn);
      assert Do(n, Abs(), UsbReturn) == UsbReturned(Abs());
      hide Do, Enabled, UsbReturned;
      GiveBack();
    }

    method GiveBack()
      requires Valid() && usb.UsbGiveBack?
      modifies this`usb, this`cam, empty, empty.nodes`next, usbBuf`next
      ensures Shape() && Abs() == UsbReturned(old(Abs()))
    {
      hide Moves, Inv, Queue.Valid, Within, Numbered, IdsOf, DataOf, CamHolds, WokenCam, WokenUsb;
      WokenHolds(cam, usb);
      Apart();
      PushApart(empty, action, usbBuf, pool);
      cam, usb := if usb.last then cam else WokenCam(cam), // pthread_cond_signal
        if usb.last then UsbExited else UsbTest;
    }

    // ---------- Starting and stopping ----------

    /** frame_queue_allocate_buffers.  `failAt` is the buffer whose memory cannot be had,
        if it is one of the pool. */
    method AllocateBuffers(memory: nat -> Packet, failAt: nat)
      requires Valid() && main == MainAlloc
      modifies this`pool, this`main, this`allocs, this`shutdown, this`cam, this`usb, empty
      ensures Valid() && Moves(n, old(Abs()), Allocate(n <= failAt, memory), Abs())
      ensures forall x :: x in pool ==> x in old(pool) || fresh(x)
    {
      hide Moves, Inv, Queue.Valid, Within, Numbered, IdsOf, DataOf, CamHolds, UsbHolds, WokenCam, WokenUsb;
      NothingAllocated(n, Abs());
      StepIs(n, Abs(), Allocate(n <= failAt, memory));
      WokenHolds(cam, usb);
      var buffers := MakeBuffers(n, memory, failAt);
      if buffers == [] {
        shutdown := true;
        cam, usb := WokenCam(cam), WokenUsb(usb); // pthread_cond_broadcast
        main := MainDone;
        assert Abs() == Allocated(n, old(Abs()), false, memory);
      } else {
        InstallPool(memory, buffers);
      }
    }

    method InstallPool(memory: nat -> Packet, buffers: seq<FrameBuffer>)
      requires Valid() && main == MainAlloc && |buffers| == n
      requires forall k :: 0 <= k < n ==> buffers[k].id == k && buffers[k].data == memory(k)
      modifies this`pool, this`main, this`allocs, empty, buffers`next
      ensures Valid() && Moves(n, old(Abs()), Allocate(true, memory), Abs()) && pool == buffers
    {
      hide Moves, Inv, Queue.Valid, Within, Numbered, IdsOf, DataOf, CamHolds, UsbHolds;
      NothingAllocated(n, Abs());
      StepIs(n, Abs(), Allocate(true, memory));
      NoBuffers();
      PushAll(empty, buffers);
      pool, allocs, main := buffers, allocs + 1, MainCreateCam;
      NewPool(buffers, memory);
      assert Abs() == Allocated(n, old(Abs()), true, memory);
    }

    /** pthread_create for the USB thread. */
    method StartUsbThread(ok: bool)
      requires Valid() && main == MainCreateUsb
      modifies this`main, this`usb
      ensures Valid() && Moves(n, old(Abs()), StartUsb(ok), Abs())
    {
      hide Moves, Inv, Queue.Valid, Queue.IsEmpty, Within, Numbered, IdsOf, DataOf, CamHolds;
      StepIs(n, Abs(), StartUsb(ok));
      if ok {
        NoUsbYet(n, Abs());
        usb, main := UsbTest, MainRunning;
        assert Abs() == old(Abs()).(usb := UsbTest, main := MainRunning);
      } else {
        main := MainAbort;
        assert Abs() == old(Abs()).(main := MainAbort);
      }
    }

    /** After a failed creation of the USB thread: set the flag and wake the camera thread. */
    method AbortStart()
      requires Valid() && main == MainAbort
      modifies this`main, this`shutdown, this`cam, this`usb
      ensures Valid() && Moves(n, old(Abs()), Abort, Abs())
    {
      hide Moves, Inv, Queue.Valid, Queue.IsEmpty, Within, Numbered, IdsOf, DataOf;
      hide CamHolds, UsbHolds, WokenCam, WokenUsb;
      StepIs(n, Abs(), Abort);
      WokenHolds(cam, usb);
      shutdown, main := true, MainJoinCam(false);
      cam, usb := WokenCam(cam), WokenUsb(usb); // pthread_cond_broadcast
      assert Abs() == Shutdown(old(Abs())).(main := MainJoinCam(false));
    }

    /** camera_threads_cleanup, up to the first join. */
    method StopThreads()
      requires Valid() && main == MainRunning
      modifies this`main, this`shutdown, this`cam, this`usb
      ensures Valid() && Moves(n, old(Abs()), Stop, Abs())
    {
      hide Moves, Inv, Queue.Valid, Queue.IsEmpty, Within, Numbered, IdsOf, DataOf;
      hide CamHolds, UsbHolds, WokenCam, WokenUsb;
      StepIs(n, Abs(), Stop);
      WokenHolds(cam, usb);
      shutdown, main := true, MainJoinCam(true);
      cam, usb := WokenCam(cam), WokenUsb(usb); // pthread_cond_broadcast
      assert Abs() == Shutdown(old(Abs())).(main := MainJoinCam(true));
    }

    /** pthread_join for the camera thread, which has ended. */
    method JoinCamera()
      requires Valid() && main.MainJoinCam? && cam == CamExited
      modifies this`main
      ensures Valid() && Moves(n, old(Abs()), JoinCam, Abs())
    {
      hide Moves, Inv, Queue.Valid, Queue.IsEmpty, Within, Numbered, IdsOf, DataOf;
      hide CamHolds, UsbHolds, WokenCam, WokenUsb;
      StepIs(n, Abs(), JoinCam);
      main := if main.usbToo then MainJoinUsb else MainRelease;
      assert Abs() == old(Abs()).(main := main);
    }

    /** pthread_join for the USB thread, which has ended. */
    method JoinUsbThread()
      requires Valid() && main == MainJoinUsb && usb == UsbExited
      modifies this`main
      ensures Valid() && Moves(n, old(Abs()), JoinUsb, Abs())
    {
      hide Moves, Inv, Queue.Valid, Queue.IsEmpty, Within, Numbered, IdsOf, DataOf;
      hide CamHolds, UsbHolds, WokenCam, WokenUsb;
      StepIs(n, Abs(), JoinUsb);
      main := MainRelease;
      assert Abs() == old(Abs()).(main := MainRelease);
    }

    /** frame_queue_cleanup, called when both threads have been joined, or when the camera
        thread could not be created. */
    method Cleanup()
      requires Valid() && (main == MainRelease || main == MainCreateCam)
      modifies this`pool, this`main, this`freed, this`shutdown, this`cam, this`usb, empty, action
      ensures Valid() && Abs() == Released(old(Abs()))
      ensures pool == []
    {
      hide Moves, Inv, Queue.Valid, Queue.IsEmpty, Within, Numbered, IdsOf, DataOf, CamHolds, UsbHolds, Do, Enabled;
      ReleasedKeeps(n, Abs());
      shutdown, main := true, MainDone;
      cam, usb := WokenCam(cam), WokenUsb(usb); // pthread_cond_broadcast
      pool, freed := [], if pool != [] then freed + 1 else freed;
      ClearBoth(action, empty);
      NoBuffers();
      assert Abs() == Released(old(Abs()));
    }

    method ReleasePool()
      requires Valid() && main == MainRelease
      modifies this`pool, this`main, this`freed, this`shutdown, this`cam, this`usb, empty, action
      ensures Valid() && Moves(n, old(Abs()), Release, Abs())
      ensures pool == []
    {
      hide Inv, Shape, Released, Moves;
      ReleaseMoves(n, Abs());
      Cleanup();
    }

    /** pthread_create for the camera thread. */
    method StartCamera(ok: bool)
      requires Valid() && main == MainCreateCam
      modifies this`pool, this`main, this`freed, this`shutdown, this`cam, this`usb, empty, action
      ensures Valid() && Moves(n, old(Abs()), StartCam(ok), Abs())
      ensures pool == old(pool) || pool == []
    {
      hide Inv, Queue.Valid, Queue.IsEmpty, Within, Numbered, IdsOf, DataOf, Released;
      StepIs(n, Abs(), StartCam(ok));
      if ok {
        NotYetStarted(n, Abs());
        cam, main := CamTest, MainCreateUsb;
        assert Abs() == old(Abs()).(cam := CamTest, main := MainCreateUsb);
      } else {
        Cleanup();
      }
    }

    // ---------- Runs ----------

    /** The step of label `l`. */
    method Perform(l: Label)
      requires Valid() && Enabled(Abs(), l)
      modifies this, empty, action, pool
      ensures Valid() && Moves(n, old(Abs()), l, Abs())
      ensures forall x :: x in pool ==> x in old(pool) || fresh(x)
    {
      hide Moves, Inv, Queue.Valid, Queue.IsEmpty, Numbered, IdsOf, DataOf, Do;
      if OfCam(l) {
        PerformCam(l);
      } else if OfUsb(l) {
        PerformUsb(l);
      } else {
        PerformMain(l);
      }
    }

    method PerformCam(l: Label)
      requires Valid() && Enabled(Abs(), l) && OfCam(l)
      modifies this, empty, pool, action
      ensures Valid() && Moves(n, old(Abs()), l, Abs()) && pool == old(pool)
    {
      hide Moves, Inv, Queue.Valid, Queue.IsEmpty, Numbered, IdsOf, DataOf, UsbHolds;
      match l
      case CamReadFlag => CamTestFlag();
      case CamPull => PullEmpty();
      case CamGetFrame(capture) => GetFrame(capture);
      case CamRaise => CamRaiseShutdown();
      case CamReturn => CamReturnBuffer();
      case CamPackFrame(packed, junk) => PackFrame(packed, junk);
      case CamPublish => PublishFrame();
      case CamSpurious => CamWake();
    }

    method PerformUsb(l: Label)
      requires Valid() && Enabled(Abs(), l) && OfUsb(l)
      modifies this, empty, pool, action
      ensures Valid() && Moves(n, old(Abs()), l, Abs()) && pool == old(pool)
    {
      hide Moves, Inv, Queue.Valid, Queue.IsEmpty, Numbered, IdsOf, DataOf, CamHolds;
      match l
      case UsbReadFlag => UsbTestFlag();
      case UsbPull => PullAction();
      case UsbSendBytes(result) => SendBytes(result);
      case UsbRaise => UsbRaiseShutdown();
      case UsbReturn => UsbReturnBuffer();
      case UsbSpurious => UsbWake();
    }

    method PerformMain(l: Label)
      requires Valid() && Enabled(Abs(), l) && !OfCam(l) && !OfUsb(l)
      modifies this, empty, action
      ensures Valid() && Moves(n, old(Abs()), l, Abs())
      ensures forall x :: x in pool ==> x in old(pool) || fresh(x)
    {
      hide Moves, Inv, Queue.Valid, Queue.IsEmpty, Numbered, IdsOf, DataOf, CamHolds, UsbHolds;
      match l
      case Allocate(ok, memory) => AllocateBuffers(memory, if ok then n else 0);
      case StartCam(ok) => StartCamera(ok);
      case StartUsb(ok) => StartUsbThread(ok);
      case Abort => AbortStart();
      case Stop => StopThreads();
      case JoinCam => JoinCamera();
      case JoinUsb => JoinUsbThread();
      case Release => ReleasePool();
    }

    /** Any interleaving of the threads, with any results of their calls: the linked lists go
        through exactly the states of the state machine, and stay acyclic and disjoint. */
    method Run(ls: seq<Label>)
      requires Valid() && exists t :: Runs(n, Abs(), ls, t)
      modifies this, empty, action, pool
      ensures Valid() && Runs(n, old(Abs()), ls, Abs())
      ensures empty.Valid() && action.Valid() && forall x :: x in empty.nodes ==> x !in action.nodes
    {
      hide Moves, Inv, Shape, Do, Enabled;
      ghost var t: State :| Runs(n, Abs(), ls, t);
      var k := 0;
      while k < |ls|
        invariant 0 <= k <= |ls| && Valid() && Runs(n, Abs(), ls[k..], t)
        invariant forall i :: 0 <= i < |pool| ==> pool[i] in old(pool) || fresh(pool[i])
      {
        ghost var s := Abs();
        FirstOfRun(n, s, ls[k..], t);
        assert ls[k..][1..] == ls[k + 1..];
        assert forall x: object :: x in pool ==> x in old(pool) || fresh(x);
        Perform(ls[k]);
        MovesIs(n, s, ls[k], Abs());
        k := k + 1;
      }
      Apart();
      assert ls[k..] == [];
      QueuesValid();
    }

    lemma QueuesValid()
      requires Shape()
      ensures empty.Valid() && action.Valid()
    {
    }
  }

  /** The same from the start: a new pipeline of `n` buffers. */
  method RunFromStart(n: nat, ls: seq<Label>) returns (p: Pipeline)
    requires n > 0 && exists t :: Runs(n, Initial(), ls, t)
    ensures p.n == n && p.Valid() && Runs(n, Initial(), ls, p.Abs())
    ensures p.empty.Valid() && p.action.Valid() && forall x :: x in p.empty.nodes ==> x !in p.action.nodes
  {
    hide Runs, Inv;
    p := new Pipeline(n);
    assert p.pool == [];
    p.Run(ls);
  }

  lemma FirstOfRun(n: nat, s: State, ls: seq<Label>, t: State)
    requires ls != [] && Runs(n, s, ls, t)
    ensures Enabled(s, ls[0]) && InRange(s) && Runs(n, Do(n, s, ls[0]), ls[1..], t)
  {
  }

  lemma MovesIs(n: nat, s: State, l: Label, t: State)
    requires Moves(n, s, l, t)
    ensures Enabled(s, l) && InRange(s) && Do(n, s, l) == t
  {
  }
}
