// CameraVirtualPreview of src/virtual/camera_virtual.cpp: source frames are
// referenced when enqueued and released by the worker thread, by pause or by stop.
// For each one the worker takes a frame from its own pool of seven and waits for it
// if need be; listeners may hold on to those frames.
module PreviewQueue {

  import opened Common

  const POOL_SIZE: nat := 7

  /** `running`: worker_ is joinable; `looping`: its thread is still in doPreview;
      `dst`: it has a scaled frame for the source frame in hand.  `scaled` counts the
      free frames of scaled_down_frames_ and `lent` those that listeners hold;
      acquired and released count the source references taken and given back here. */
  datatype Queue = Queue(running: bool, looping: bool, stop: bool, pause: bool,
                         pending: seq<nat>, inHand: Option<nat>, dst: bool,
                         scaled: nat, lent: nat,
                         acquired: multiset<nat>, released: multiset<nat>)

  /** Steps of the control thread (start, stop in two parts, pause, resume), of the
      camera thread (enqueue), of the worker (pick, alloc, finish, exit) and of the
      listeners.  `keeps` says whether a listener still holds the scaled frame when
      the worker has released it. */
  datatype Op = Start | StopBegin | StopEnd | Pause | Resume | Enqueue(frame: nat)
              | Pick | Alloc | Finish(keeps: bool) | Exit | ListenerDone

  const IDLE: Queue := Queue(false, false, false, false, [], None, false, 0, 0, multiset{}, multiset{})

  predicate Enabled(q: Queue, op: Op)
  {
    match op
    case StopEnd => q.running && q.stop && !q.looping
    case Pick => q.looping && q.inHand.None? && !q.stop && q.pending != []
    case Alloc => q.inHand.Some? && !q.dst && q.scaled > 0
    case Finish(_) => q.inHand.Some? && q.dst
    case Exit => q.looping && q.inHand.None? && q.stop
    case ListenerDone => q.lent > 0
    case _ => true
  }

  function DropPending(q: Queue): Queue
  {
    q.(pending := [], released := q.released + multiset(q.pending))
  }

  function Apply(q: Queue, op: Op): Queue
    requires Enabled(q, op)
  {
    match op
    case Start => if q.running then q else q.(running := true, looping := true, scaled := POOL_SIZE, lent := 0)
    case StopBegin => if q.running then q.(stop := true) else q
    case StopEnd => DropPending(q).(running := false, stop := false, scaled := 0, lent := 0)
    case Pause => DropPending(q).(pause := true)
    case Resume => q.(pause := false)
    case Enqueue(f) =>
      if !q.pause && q.running then
        q.(pending := q.pending + [f], acquired := q.acquired + multiset{f})
      else q
    case Pick => q.(inHand := Some(q.pending[0]), pending := q.pending[1..])
    case Alloc => q.(dst := true, scaled := q.scaled - 1)
    case Finish(keeps) =>
      q.(inHand := None, dst := false, released := q.released + multiset{q.inHand.value},
         scaled := if keeps then q.scaled else q.scaled + 1, lent := if keeps then q.lent + 1 else q.lent)
    case Exit => q.(looping := false)
    case ListenerDone => q.(lent := q.lent - 1, scaled := q.scaled + 1)
  }

  // ---- conservation ------------------------------------------------------

  function Held(q: Queue): multiset<nat>
  {
    multiset(q.pending) + (if q.inHand.Some? then multiset{q.inHand.value} else multiset{})
  }

  ghost predicate Balanced(q: Queue) { q.acquired == q.released + Held(q) }

  /** The scaled frames are free, in the worker's hand or with listeners. */
  predicate PoolBalanced(q: Queue)
  {
    if q.running then q.scaled + q.lent + (if q.dst then 1 else 0) == POOL_SIZE
    else q.scaled == 0 && q.lent == 0
  }

  /** References taken are references given back or still held; a stopped or paused
      queue holds none pending. */
  ghost predicate Inv(q: Queue)
  {
    && Balanced(q) && PoolBalanced(q)
    && (q.dst ==> q.inHand.Some?)
    && (q.inHand.Some? ==> q.looping)
    && (q.looping ==> q.running)
    && (q.stop ==> q.running)
    && (q.running && !q.looping ==> q.stop)
    && (!q.running ==> q.pending == [])
    && (q.pause ==> q.pending == [])
  }

  /** The part of Inv that is not about counting references. */
  lemma ApplyShape(q: Queue, op: Op)
    requires Inv(q) && Enabled(q, op)
    ensures var r := Apply(q, op);
            && PoolBalanced(r) && (r.dst ==> r.inHand.Some?)
            && (r.inHand.Some? ==> r.looping) && (r.looping ==> r.running) && (r.stop ==> r.running)
            && (r.running && !r.looping ==> r.stop)
            && (!r.running ==> r.pending == []) && (r.pause ==> r.pending == [])
  {
    hide Held;
  }

  lemma PickBalance(q: Queue)
    requires Balanced(q) && q.inHand.None? && q.pending != []
    ensures Balanced(q.(inHand := Some(q.pending[0]), pending := q.pending[1..]))
  {
    assert q.pending == [q.pending[0]] + q.pending[1..];
    assert multiset([q.pending[0]] + q.pending[1..]) == multiset{q.pending[0]} + multiset(q.pending[1..]);
  }

  lemma EnqueueBalance(q: Queue, f: nat)
    requires Balanced(q)
    ensures Balanced(q.(pending := q.pending + [f], acquired := q.acquired + multiset{f}))
  {
    assert multiset(q.pending + [f]) == multiset(q.pending) + multiset{f};
  }

  lemma ApplyBalance(q: Queue, op: Op)
    requires Inv(q) && Enabled(q, op)
    ensures Balanced(Apply(q, op))
  {
    match op
    case Enqueue(f) => EnqueueBalance(q, f);
    case Pick => PickBalance(q);
    case _ =>
  }

  lemma ApplyInv(q: Queue, op: Op)
    requires Inv(q) && Enabled(q, op)
    ensures Inv(Apply(q, op))
  {
    hide Apply, Held;
    ApplyShape(q, op);
    ApplyBalance(q, op);
  }

  predicate CanRun(q: Queue, ops: seq<Op>)
    decreases |ops|
  {
    ops == [] || (Enabled(q, ops[0]) && CanRun(Apply(q, ops[0]), ops[1..]))
  }

  function Run(q: Queue, ops: seq<Op>): Queue
    requires CanRun(q, ops)
    decreases |ops|
  {
    if ops == [] then q else Run(Apply(q, ops[0]), ops[1..])
  }

  lemma RunOne(q: Queue, op: Op, ops: seq<Op>)
    requires Enabled(q, op)
    ensures CanRun(q, [op] + ops) <==> CanRun(Apply(q, op), ops)
    ensures CanRun(Apply(q, op), ops) ==> Run(q, [op] + ops) == Run(Apply(q, op), ops)
  {
    hide Enabled, Apply;
    assert ([op] + ops)[1..] == ops;
  }

  lemma {:induction false} RunInv(q: Queue, ops: seq<Op>)
    requires Inv(q) && CanRun(q, ops)
    ensures Inv(Run(q, ops))
    decreases |ops|
  {
    hide Inv, Enabled, Apply;
    if ops != [] {
      ApplyInv(q, ops[0]);
      RunInv(Apply(q, ops[0]), ops[1..]);
    }
  }

  /** Under every interleaving of the threads a source frame is never released more
      often than it was enqueued, and once the worker is stopped each one enqueued
      has been released exactly once. */
  lemma ReleasedExactlyOnce(ops: seq<Op>)
    requires CanRun(IDLE, ops)
    ensures var q := Run(IDLE, ops);
            && q.released <= q.acquired
            && (!q.running ==> q.released == q.acquired)
  {
    RunInv(IDLE, ops);
  }

  // ---- order -------------------------------------------------------------

  /** How a frame leaves the pending ones: into the worker's hand, or released by pause
      or stop. */
  datatype Leaving = ToWorker(frame: nat) | Dropped(frame: nat)

  function AllDropped(frames: seq<nat>): (r: seq<Leaving>)
    ensures FramesOf(r) == frames
  {
    if frames == [] then [] else [Dropped(frames[0])] + AllDropped(frames[1..])
  }

  function FramesOf(ls: seq<Leaving>): seq<nat>
  {
    if ls == [] then [] else [ls[0].frame] + FramesOf(ls[1..])
  }

  /** The frame a step accepts, and those that leave with it. */
  function Accepted(q: Queue, op: Op): seq<nat>
  {
    match op case Enqueue(f) => if q.running && !q.pause then [f] else [] case _ => []
  }

  function Leaves(q: Queue, op: Op): seq<Leaving>
    requires Enabled(q, op)
  {
    match op
    case Pick => [ToWorker(Apply(q, Pick).inHand.value)]
    case StopEnd => AllDropped(q.pending)
    case Pause => AllDropped(q.pending)
    case _ => []
  }

  function AllAccepted(q: Queue, ops: seq<Op>): seq<nat>
    requires CanRun(q, ops)
    decreases |ops|
  {
    if ops == [] then [] else Accepted(q, ops[0]) + AllAccepted(Apply(q, ops[0]), ops[1..])
  }

  function AllLeaves(q: Queue, ops: seq<Op>): seq<Leaving>
    requires CanRun(q, ops)
    decreases |ops|
  {
    if ops == [] then [] else Leaves(q, ops[0]) + AllLeaves(Apply(q, ops[0]), ops[1..])
  }

  lemma {:induction false} FramesConcat(a: seq<Leaving>, b: seq<Leaving>)
    ensures FramesOf(a + b) == FramesOf(a) + FramesOf(b)
  {
    if a == [] {
      assert a + b == b;
    } else {
      assert (a + b)[1..] == a[1..] + b;
      FramesConcat(a[1..], b);
    }
  }

  lemma StepInOrder(q: Queue, op: Op)
    requires Enabled(q, op)
    ensures q.pending + Accepted(q, op) == FramesOf(Leaves(q, op)) + Apply(q, op).pending
  {
    if op.Pick? {
      var l := Leaves(q, op);
      assert l[1..] == [];
      assert FramesOf(l) == [q.pending[0]];
    }
  }

  /** First in, first out: over any run of any interleaving the frames that leave, to
      the worker or dropped, are in order exactly the ones that were pending or
      accepted, up to those still pending. */
  lemma {:induction false} FirstInFirstOut(q: Queue, ops: seq<Op>)
    requires CanRun(q, ops)
    ensures q.pending + AllAccepted(q, ops) == FramesOf(AllLeaves(q, ops)) + Run(q, ops).pending
    decreases |ops|
  {
    hide Enabled, Apply, Accepted, Leaves, FramesOf;
    if ops == [] {
      assert FramesOf([]) == [] by { NoFrames(); }
    } else {
      var r := Apply(q, ops[0]);
      var a, b := Leaves(q, ops[0]), AllLeaves(r, ops[1..]);
      StepInOrder(q, ops[0]);
      FirstInFirstOut(r, ops[1..]);
      FramesConcat(a, b);
      Regroup(q.pending, Accepted(q, ops[0]), AllAccepted(r, ops[1..]), FramesOf(a), r.pending,
        FramesOf(b), Run(r, ops[1..]).pending);
    }
  }

  lemma NoFrames()
    ensures FramesOf([]) == []
  {
  }

  // ---- stopping ----------------------------------------------------------

  /** The worker is inside alloc and all scaled frames are gone. */
  predicate Starved(q: Queue) { q.inHand.Some? && !q.dst && q.scaled == 0 }

  /** No step of the worker, nor the end of stop's join, can be taken. */
  predicate StopStuck(q: Queue)
  {
    && !Enabled(q, Pick) && !Enabled(q, Alloc)
    && !Enabled(q, Finish(true)) && !Enabled(q, Finish(false))
    && !Enabled(q, Exit) && !Enabled(q, StopEnd)
  }

  /** Once stop has begun, its join is stuck exactly when the worker waits in alloc
      while listeners hold all seven frames: stop_ does not interrupt that wait. */
  lemma StopStuckIff(q: Queue)
    requires Inv(q) && q.running && q.stop
    ensures StopStuck(q) <==> Starved(q)
    ensures Starved(q) <==> q.inHand.Some? && q.lent == POOL_SIZE
  {
    hide Balanced;
  }

  /** It stays stuck, whatever the other threads do, until a listener lets go. */
  lemma {:induction false} StuckUntilListenerDone(q: Queue, ops: seq<Op>)
    requires Inv(q) && q.running && q.stop && Starved(q) && CanRun(q, ops)
    requires forall k :: 0 <= k < |ops| ==> !ops[k].ListenerDone?
    ensures var r := Run(q, ops);
            r.running && r.stop && Starved(r) && r.inHand == q.inHand && r.lent == q.lent
    decreases |ops|
  {
    if ops != [] {
      StarvedStep(q, ops[0]);
      ApplyInv(q, ops[0]);
      StuckUntilListenerDone(Apply(q, ops[0]), ops[1..]);
    }
  }

  lemma StarvedStep(q: Queue, op: Op)
    requires Inv(q) && q.running && q.stop && Starved(q) && Enabled(q, op) && !op.ListenerDone?
    ensures var r := Apply(q, op);
            r.running && r.stop && Starved(r) && r.inHand == q.inHand && r.lent == q.lent
  {
    hide Balanced;
  }

  /** The worker's own steps from here to its end, and then the end of stop. */
  function StopSteps(q: Queue, keeps: bool): seq<Op>
  {
    (if q.inHand.None? then [] else if q.dst then [Finish(keeps)] else [Alloc, Finish(keeps)])
    + if q.looping then [Exit, StopEnd] else [StopEnd]
  }

  /** In every other state the worker's own steps bring it to its end and stop's join
      returns, and then nothing is held any more. */
  lemma StopCompletes(q: Queue, keeps: bool)
    requires Inv(q) && q.running && q.stop && !Starved(q)
    ensures CanRun(q, StopSteps(q, keeps))
    ensures var r := Run(q, StopSteps(q, keeps)); !r.running && r.acquired == r.released
  {
    hide Apply, Balanced, Held, Run, CanRun;
    if q.inHand.None? {
      EndsWithNothingHeld(q);
      assert StopSteps(q, keeps) == if q.looping then [Exit, StopEnd] else [StopEnd];
    } else if q.dst {
      Finishes(q, keeps);
      assert [Finish(keeps)] + [Exit, StopEnd] == StopSteps(q, keeps);
    } else {
      AllocFits(q);
      var a := Apply(q, Alloc);
      Finishes(a, keeps);
      RunOne(q, Alloc, [Finish(keeps)] + [Exit, StopEnd]);
      assert [Alloc] + ([Finish(keeps)] + [Exit, StopEnd]) == StopSteps(q, keeps);
    }
  }

  lemma AllocFits(q: Queue)
    requires Inv(q) && q.running && q.stop && q.inHand.Some? && !q.dst && q.scaled > 0
    ensures var a := Apply(q, Alloc); Inv(a) && a.running && a.stop && a.inHand.Some? && a.dst
  {
    ApplyInv(q, Alloc);
  }

  lemma Finishes(q: Queue, keeps: bool)
    requires Inv(q) && q.running && q.stop && q.inHand.Some? && q.dst
    ensures CanRun(q, [Finish(keeps)] + [Exit, StopEnd])
    ensures var r := Run(q, [Finish(keeps)] + [Exit, StopEnd]); !r.running && r.acquired == r.released
  {
    var f := Apply(q, Finish(keeps));
    ApplyInv(q, Finish(keeps));
    assert f.running && f.stop && f.looping && f.inHand.None?;
    hide Apply, Inv, Run, CanRun;
    EndsWithNothingHeld(f);
    RunOne(q, Finish(keeps), [Exit, StopEnd]);
  }

  lemma EndsWithNothingHeld(q: Queue)
    requires Inv(q) && q.running && q.stop && q.inHand.None?
    ensures var ops := if q.looping then [Exit, StopEnd] else [StopEnd];
            CanRun(q, ops) && !Run(q, ops).running && Run(q, ops).acquired == Run(q, ops).released
  {
    if q.looping {
      ApplyInv(q, Exit);
      JoinReturns(Apply(q, Exit));
      RunOne(q, Exit, [StopEnd]);
      assert [Exit] + [StopEnd] == [Exit, StopEnd];
    } else {
      JoinReturns(q);
    }
  }

  lemma JoinReturns(q: Queue)
    requires Inv(q) && q.running && q.stop && q.inHand.None? && !q.looping
    ensures CanRun(q, [StopEnd]) && !Run(q, [StopEnd]).running
    ensures Run(q, [StopEnd]).acquired == Run(q, [StopEnd]).released
  {
    RunOne(q, StopEnd, []);
    assert [StopEnd] + [] == [StopEnd];
    ApplyInv(q, StopEnd);
    NothingHeld(Apply(q, StopEnd));
  }

  lemma NothingHeld(q: Queue)
    requires q.pending == [] && q.inHand.None?
    ensures Held(q) == multiset{}
  {
  }

  // ---- a run to a stuck stop ---------------------------------------------

  /** One frame that a listener keeps. */
  const LEND: seq<Op> := [Enqueue(0), Pick, Alloc, Finish(true)]

  function LendAll(n: nat): seq<Op>
  {
    if n == 0 then [Enqueue(0), Pick, StopBegin] else LEND + LendAll(n - 1)
  }

  function Lent(q: Queue): Queue
    requires q.scaled > 0
  {
    q.(scaled := q.scaled - 1, lent := q.lent + 1,
       acquired := q.acquired + multiset{0}, released := q.released + multiset{0})
  }

  /** Nothing pending, the worker waiting, and no stop or pause. */
  predicate Waiting(q: Queue)
  {
    q.running && q.looping && !q.stop && !q.pause && q.pending == [] && q.inHand.None? && !q.dst
  }

  lemma LendStates(q: Queue)
    requires Waiting(q) && q.scaled > 0
    ensures var e := Apply(q, Enqueue(0));
            Enabled(e, Pick) &&
            var p := Apply(e, Pick);
            Enabled(p, Alloc) &&
            var a := Apply(p, Alloc);
            Enabled(a, Finish(true)) && Apply(a, Finish(true)) == Lent(q)
  {
    var e := Apply(q, Enqueue(0));
    assert e.pending == [0] && e.pending[1..] == [];
  }

  lemma LendOne(q: Queue, ops: seq<Op>)
    requires Waiting(q) && q.scaled > 0
    ensures CanRun(q, LEND + ops) <==> CanRun(Lent(q), ops)
    ensures CanRun(Lent(q), ops) ==> Run(q, LEND + ops) == Run(Lent(q), ops)
  {
    LendStates(q);
    hide Run, CanRun, Apply, Lent, Waiting;
    var e := Apply(q, Enqueue(0));
    var p := Apply(e, Pick);
    var a := Apply(p, Alloc);
    RunOne(a, Finish(true), ops);
    RunOne(p, Alloc, [Finish(true)] + ops);
    RunOne(e, Pick, [Alloc] + ([Finish(true)] + ops));
    RunOne(q, Enqueue(0), [Pick] + ([Alloc] + ([Finish(true)] + ops)));
    assert LEND + ops == [Enqueue(0)] + ([Pick] + ([Alloc] + ([Finish(true)] + ops)));
  }

  lemma {:induction false} LendsAll(q: Queue, n: nat)
    requires Waiting(q) && q.scaled == n
    ensures CanRun(q, LendAll(n))
    ensures var r := Run(q, LendAll(n)); r.running && r.stop && Starved(r)
    decreases n
  {
    if n == 0 {
      var e := Apply(q, Enqueue(0));
      var p := Apply(e, Pick);
      hide Run, CanRun;
      RunNone(Apply(p, StopBegin));
      RunOne(p, StopBegin, []);
      RunOne(e, Pick, [StopBegin] + []);
      RunOne(q, Enqueue(0), [Pick] + ([StopBegin] + []));
      assert LendAll(0) == [Enqueue(0)] + ([Pick] + ([StopBegin] + []));
    } else {
      hide Run, CanRun;
      LendsAll(Lent(q), n - 1);
      LendOne(q, LendAll(n - 1));
    }
  }

  lemma RunNone(q: Queue)
    ensures CanRun(q, []) && Run(q, []) == q
  {
  }

  /** Seven scaled frames kept by a listener, one more source frame, and stop hangs. */
  lemma StopCanHang()
    ensures var ops := [Start] + LendAll(POOL_SIZE);
            CanRun(IDLE, ops) && Run(IDLE, ops).stop && Starved(Run(IDLE, ops))
  {
    hide Run, CanRun;
    LendsAll(Apply(IDLE, Start), POOL_SIZE);
    RunOne(IDLE, Start, LendAll(POOL_SIZE));
  }

  // ---- the object --------------------------------------------------------

  class CameraVirtualPreview {
    var running: bool
    var looping: bool
    var stop_: bool
    var pause_: bool
    var pending: seq<nat>
    var inHand: Option<nat>
    var dst: bool
    var scaled: nat
    var lent: nat
    ghost var acquired: multiset<nat>
    ghost var released: multiset<nat>

    ghost function State(): Queue
      reads this
    {
      Queue(running, looping, stop_, pause_, pending, inHand, dst, scaled, lent, acquired, released)
    }

    constructor ()
      ensures State() == IDLE && Inv(State())
    {
      running, looping, stop_, pause_ := false, false, false, false;
      pending, inHand, dst, scaled, lent := [], None, false, 0, 0;
      acquired, released := multiset{}, multiset{};
    }

    method AcquireRef(ghost f: nat)
      modifies this`acquired
      ensures acquired == old(acquired) + multiset{f}
    {
      acquired := acquired + multiset{f};
    }

    method ReleaseRef(ghost f: nat)
      modifies this`released
      ensures released == old(released) + multiset{f}
    {
      released := released + multiset{f};
    }

    /** The loop in pause and in stop: take each pending frame off and release it. */
    method ReleasePending()
      modifies this`pending, this`released
      ensures State() == DropPending(old(State()))
    {
      while pending != []
        invariant released + multiset(pending) == old(released + multiset(pending))
        decreases |pending|
      {
        var srcFrame := pending[0];
        assert pending == [srcFrame] + pending[1..];
        pending := pending[1..];
        ReleaseRef(srcFrame);
      }
    }

    /** start; the scaled frames are made anew. */
    method StartPreview() returns (already: bool)
      requires Inv(State())
      modifies this
      ensures already == old(running) && State() == Apply(old(State()), Start) && Inv(State())
    {
      ApplyInv(State(), Start);
      hide Inv;
      already := running;
      if !already { running, looping, scaled, lent := true, true, POOL_SIZE, 0; }
    }

    method PausePreview()
      requires Inv(State())
      modifies this
      ensures State() == Apply(old(State()), Pause) && Inv(State())
    {
      ApplyInv(State(), Pause);
      hide Inv;
      pause_ := true;
      ReleasePending();
    }

    method ResumePreview()
      requires Inv(State())
      modifies this
      ensures State() == Apply(old(State()), Resume) && Inv(State())
    {
      ApplyInv(State(), Resume);
      hide Inv;
      pause_ := false;
    }

    method EnqueueFrame(f: nat)
      requires Inv(State())
      modifies this
      ensures State() == Apply(old(State()), Enqueue(f)) && Inv(State())
    {
      hide Inv;
      ghost var next := Apply(State(), Enqueue(f));
      ApplyInv(State(), Enqueue(f));
      if !pause_ && running {
        AcquireRef(f);
        pending := pending + [f];
      }
      assert State() == next;
    }

    /** One round of doPreview in three parts: pick the frame at the front; get a
        frame to scale it into; hand that on and release both. */
    method PickFrame() returns (f: nat)
      requires Inv(State()) && Enabled(State(), Pick)
      modifies this
      ensures State() == Apply(old(State()), Pick) && f == old(pending[0]) && Inv(State())
    {
      ApplyInv(State(), Pick);
      hide Inv;
      f := pending[0];
      pending := pending[1..];
      inHand := Some(f);
    }

    method AllocScaled()
      requires Inv(State()) && Enabled(State(), Alloc)
      modifies this
      ensures State() == Apply(old(State()), Alloc) && Inv(State())
    {
      ApplyInv(State(), Alloc);
      hide Inv;
      dst, scaled := true, scaled - 1;
    }

    method FinishFrame(keeps: bool)
      requires Inv(State()) && Enabled(State(), Finish(keeps))
      modifies this
      ensures State() == Apply(old(State()), Finish(keeps)) && Inv(State())
    {
      hide Inv;
      ghost var next := Apply(State(), Finish(keeps));
      ApplyInv(State(), Finish(keeps));
      ReleaseRef(inHand.value);
      if keeps { lent := lent + 1; } else { scaled := scaled + 1; }
      inHand, dst := None, false;
      assert State() == next;
    }

    /** stop, behind the join. */
    method EndStop()
      requires Inv(State()) && Enabled(State(), StopEnd)
      modifies this
      ensures State() == Apply(old(State()), StopEnd) && Inv(State())
    {
      ApplyInv(State(), StopEnd);
      hide Inv;
      running := false;
      ReleasePending();
      stop_, scaled, lent := false, 0, 0;
    }
  }
}
