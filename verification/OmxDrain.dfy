// The open drain of src/omx/camera_component.cpp over the buffer pool of
// src/omx/buffer_pool.cpp: threads dispatch camera frames in pool buffers, and the
// component acknowledges them.  dispatchOmx waits for a free buffer inside
// allocBuf while it holds the drain's lock; emptyBufferDone needs that lock.
module OmxDrain {
  import opened BufferPool
  import opened Common

  /** Where a dispatching thread is: outside; waiting for the drain's lock; holding
      it in allocBuf; unlocked, in OMX_EmptyThisBuffer; or, that having failed,
      waiting for the lock again in emptyBufferDone. */
  datatype Pc = Outside | WantLock(frame: nat) | InAlloc(frame: nat) | Sending(buf: nat) | Failing(buf: nat)

  /** Who has a buffer: the free list, a dispatching thread, the component, or the
      component's callback waiting for the drain's lock in emptyBufferDone. */
  datatype Place = Free | Dispatcher(tid: nat) | Component | Acking

  /** app[b] is pAppPrivate of buffer b; refs are the frame references taken. */
  datatype Drain = Drain(pcs: seq<Pc>, holder: Option<nat>, free: seq<nat>,
                         place: seq<Place>, app: seq<Option<nat>>, refs: multiset<nat>)

  function Opened(threads: nat, buffers: nat): Drain
  {
    Drain(seq(threads, _ => Outside), None, seq(buffers, b => b),
          seq(buffers, _ => Free), seq(buffers, _ => None), multiset{})
  }

  datatype Op = Arrive(t: nat, frame: nat) | Lock(t: nat) | Alloc(t: nat)
              | SendOk(t: nat) | SendFail(t: nat) | GiveUp(t: nat)
              | Callback(b: nat) | Ack(b: nat)

  predicate Enabled(d: Drain, op: Op)
  {
    match op
    case Arrive(t, _) => t < |d.pcs| && d.pcs[t].Outside?
    case Lock(t) => t < |d.pcs| && d.pcs[t].WantLock? && d.holder.None?
    case Alloc(t) => t < |d.pcs| && d.pcs[t].InAlloc? && d.free != [] && Known(d, d.free[0])
    case SendOk(t) => t < |d.pcs| && d.pcs[t].Sending? && Known(d, d.pcs[t].buf)
    case SendFail(t) => t < |d.pcs| && d.pcs[t].Sending?
    case GiveUp(t) => t < |d.pcs| && d.pcs[t].Failing? && Known(d, d.pcs[t].buf) && d.holder.None?
    case Callback(b) => Known(d, b) && d.place[b].Component?
    case Ack(b) => Known(d, b) && d.place[b].Acking? && d.holder.None?
  }

  predicate Known(d: Drain, b: nat) { b < |d.place| && b < |d.app| }

  /** emptyBufferDone under the lock: drop the frame's reference, free the buffer. */
  function BufferDone(d: Drain, b: nat): Drain
    requires Known(d, b)
  {
    d.(refs := if d.app[b].Some? then d.refs - multiset{d.app[b].value} else d.refs,
       app := d.app[b := None], place := d.place[b := Free], free := d.free + [b])
  }

  function Apply(d: Drain, op: Op): Drain
    requires Enabled(d, op)
  {
    match op
    case Arrive(t, f) => d.(pcs := d.pcs[t := WantLock(f)])
    case Lock(t) => d.(pcs := d.pcs[t := InAlloc(d.pcs[t].frame)], holder := Some(t))
    case Alloc(t) =>
      var b, f := d.free[0], d.pcs[t].frame;
      d.(free := d.free[1..], app := d.app[b := Some(f)], place := d.place[b := Dispatcher(t)],
         refs := d.refs + multiset{f}, pcs := d.pcs[t := Sending(b)], holder := None)
    case SendOk(t) =>
      d.(place := d.place[d.pcs[t].buf := Component], pcs := d.pcs[t := Outside])
    case SendFail(t) => d.(pcs := d.pcs[t := Failing(d.pcs[t].buf)])
    case GiveUp(t) => BufferDone(d, d.pcs[t].buf).(pcs := d.pcs[t := Outside])
    case Callback(b) => d.(place := d.place[b := Acking])
    case Ack(b) => BufferDone(d, b)
  }

  // ---- conservation ------------------------------------------------------

  function One(x: Option<nat>): multiset<nat> { if x.Some? then multiset{x.value} else multiset{} }

  /** The frames of the buffers in flight, counted. */
  function Frames(app: seq<Option<nat>>): multiset<nat>
  {
    if app == [] then multiset{}
    else One(app[0]) + Frames(app[1..])
  }

  /** A buffer is in the free list once when its place is Free and not at all
      otherwise, and carries a frame exactly while it is not free. */
  ghost predicate PoolInv(free: seq<nat>, place: seq<Place>, app: seq<Option<nat>>)
  {
    && |app| == |place|
    && (forall b :: b in free ==> b < |place|)
    && (forall b :: 0 <= b < |place| ==> multiset(free)[b] == if place[b].Free? then 1 else 0)
    && (forall b :: 0 <= b < |place| ==> (app[b].Some? <==> !place[b].Free?))
  }

  /** A dispatching thread and its buffer point at each other. */
  ghost predicate ThreadInv(pcs: seq<Pc>, place: seq<Place>)
  {
    && (forall b :: 0 <= b < |place| && place[b].Dispatcher? ==>
          place[b].tid < |pcs| && HasBuffer(pcs[place[b].tid], b))
    && (forall t :: 0 <= t < |pcs| && (pcs[t].Sending? || pcs[t].Failing?) ==>
          pcs[t].buf < |place| && place[pcs[t].buf] == Dispatcher(t))
  }

  /** The lock is held exactly by the thread in allocBuf. */
  ghost predicate LockInv(pcs: seq<Pc>, holder: Option<nat>)
  {
    && (holder.Some? ==> holder.value < |pcs| && pcs[holder.value].InAlloc?)
    && (forall t :: 0 <= t < |pcs| && pcs[t].InAlloc? ==> holder == Some(t))
  }

  predicate HasBuffer(pc: Pc, b: nat) { (pc.Sending? || pc.Failing?) && pc.buf == b }

  ghost predicate Inv(d: Drain)
  {
    && PoolInv(d.free, d.place, d.app)
    && d.refs == Frames(d.app)
    && ThreadInv(d.pcs, d.place)
    && LockInv(d.pcs, d.holder)
  }

  lemma Swap(a: multiset<nat>, b: multiset<nat>, c: multiset<nat>, d: multiset<nat>, e: multiset<nat>)
    requires b + c == d + e
    ensures a + b + c == a + d + e
  {
    assert a + b + c == a + (b + c) && a + d + e == a + (d + e);
  }

  lemma {:induction false} FramesUpdate(app: seq<Option<nat>>, b: nat, x: Option<nat>)
    requires b < |app|
    ensures Frames(app[b := x]) + One(app[b]) == Frames(app) + One(x)
  {
    hide One;
    if b == 0 {
      assert app[0 := x][1..] == app[1..];
    } else {
      var rest := app[1..];
      assert app[b := x][1..] == rest[b - 1 := x];
      FramesUpdate(rest, b - 1, x);
      Swap(One(app[0]), Frames(rest[b - 1 := x]), One(app[b]), Frames(rest), One(x));
    }
  }

  lemma {:induction false} NoFrames(app: seq<Option<nat>>)
    requires forall b :: 0 <= b < |app| ==> app[b].None?
    ensures Frames(app) == multiset{}
  {
    if app != [] { NoFrames(app[1..]); }
  }

  lemma PoolTake(free: seq<nat>, place: seq<Place>, app: seq<Option<nat>>, to: Place, f: nat)
    requires PoolInv(free, place, app) && free != [] && !to.Free?
    ensures free[0] < |place| && PoolInv(free[1..], place[free[0] := to], app[free[0] := Some(f)])
  {
    assert free[0] in free;
    HeadCount(free);
    assert forall b :: b in free[1..] ==> b in free;
  }

  /** Taking the head off changes its own count only. */
  lemma HeadCount(s: seq<nat>)
    requires s != []
    ensures multiset(s)[s[0]] == multiset(s[1..])[s[0]] + 1
    ensures forall b: nat :: b != s[0] ==> multiset(s)[b] == multiset(s[1..])[b]
  {
    assert s == [s[0]] + s[1..];
    assert multiset(s) == multiset{s[0]} + multiset(s[1..]);
  }

  lemma PoolGive(free: seq<nat>, place: seq<Place>, app: seq<Option<nat>>, b: nat)
    requires PoolInv(free, place, app) && b < |place| && !place[b].Free?
    ensures PoolInv(free + [b], place[b := Free], app[b := None])
  {
    assert multiset(free + [b]) == multiset(free) + multiset{b};
  }

  lemma BufferDoneKeeps(d: Drain, b: nat)
    requires PoolInv(d.free, d.place, d.app) && d.refs == Frames(d.app)
    requires b < |d.place| && !d.place[b].Free?
    ensures var e := BufferDone(d, b); PoolInv(e.free, e.place, e.app) && e.refs == Frames(e.app)
  {
    hide Frames;
    PoolGive(d.free, d.place, d.app, b);
    FramesUpdate(d.app, b, None);
    var rest := Frames(d.app[b := None]);
    assert rest + multiset{d.app[b].value} == Frames(d.app);
    assert rest + multiset{d.app[b].value} - multiset{d.app[b].value} == rest;
  }

  lemma ApplyLock(d: Drain, op: Op)
    requires LockInv(d.pcs, d.holder) && Enabled(d, op)
    ensures LockInv(Apply(d, op).pcs, Apply(d, op).holder)
  {
  }

  /** A thread that comes to hold buffer `b`, or to hold none. */
  lemma ThreadTakes(pcs: seq<Pc>, place: seq<Place>, t: nat, b: nat, pc: Pc)
    requires ThreadInv(pcs, place) && t < |pcs| && b < |place|
    requires !pcs[t].Sending? && !pcs[t].Failing? && place[b].Free? && HasBuffer(pc, b)
    ensures ThreadInv(pcs[t := pc], place[b := Dispatcher(t)])
  {
  }

  lemma ThreadGives(pcs: seq<Pc>, place: seq<Place>, t: nat, to: Place)
    requires ThreadInv(pcs, place) && t < |pcs| && (pcs[t].Sending? || pcs[t].Failing?) && !to.Dispatcher?
    ensures pcs[t].buf < |place| && ThreadInv(pcs[t := Outside], place[pcs[t].buf := to])
  {
  }

  lemma ThreadMoves(pcs: seq<Pc>, place: seq<Place>, t: nat, pc: Pc)
    requires ThreadInv(pcs, place) && t < |pcs|
    requires if pcs[t].Sending? then pc == Failing(pcs[t].buf)
             else !pcs[t].Failing? && !pc.Sending? && !pc.Failing?
    ensures ThreadInv(pcs[t := pc], place)
  {
  }

  lemma BufferMoves(pcs: seq<Pc>, place: seq<Place>, b: nat, to: Place)
    requires ThreadInv(pcs, place) && b < |place| && !place[b].Dispatcher? && !to.Dispatcher?
    ensures ThreadInv(pcs, place[b := to])
  {
  }

  lemma ApplyThreads(d: Drain, op: Op)
    requires ThreadInv(d.pcs, d.place) && Enabled(d, op)
    requires op.Alloc? ==> d.place[d.free[0]].Free?
    ensures ThreadInv(Apply(d, op).pcs, Apply(d, op).place)
  {
    hide ThreadInv;
    match op
    case Arrive(t, f) => ThreadMoves(d.pcs, d.place, t, WantLock(f));
    case Lock(t) => ThreadMoves(d.pcs, d.place, t, InAlloc(d.pcs[t].frame));
    case Alloc(t) => ThreadTakes(d.pcs, d.place, t, d.free[0], Sending(d.free[0]));
    case SendOk(t) => ThreadGives(d.pcs, d.place, t, Component);
    case SendFail(t) => ThreadMoves(d.pcs, d.place, t, Failing(d.pcs[t].buf));
    case GiveUp(t) => ThreadGives(d.pcs, d.place, t, Free);
    case Callback(b) => BufferMoves(d.pcs, d.place, b, Acking);
    case Ack(b) => BufferMoves(d.pcs, d.place, b, Free);
  }

  lemma ApplyPool(d: Drain, op: Op)
    requires Inv(d) && Enabled(d, op)
    ensures var e := Apply(d, op); PoolInv(e.free, e.place, e.app) && e.refs == Frames(e.app)
  {
    hide PoolInv, Frames, LockInv;
    match op
    case Alloc(t) =>
      PoolTake(d.free, d.place, d.app, Dispatcher(t), d.pcs[t].frame);
      AllocRefs(d, d.free[0], d.pcs[t].frame);
    case SendOk(t) => PoolMove(d, d.pcs[t].buf, Component);
    case Callback(b) => PoolMove(d, b, Acking);
    case GiveUp(t) => BufferDoneKeeps(d, d.pcs[t].buf);
    case Ack(b) => BufferDoneKeeps(d, b);
    case _ =>
  }

  lemma ApplyInv(d: Drain, op: Op)
    requires Inv(d) && Enabled(d, op)
    ensures Inv(Apply(d, op))
  {
    hide PoolInv, Frames, LockInv, ThreadInv, Apply;
    ApplyPool(d, op);
    ApplyLock(d, op);
    if op.Alloc? { AllocRefs(d, d.free[0], d.pcs[op.t].frame); }
    ApplyThreads(d, op);
  }

  lemma AllocRefs(d: Drain, b: nat, f: nat)
    requires PoolInv(d.free, d.place, d.app) && d.refs == Frames(d.app) && d.free != [] && b == d.free[0]
    ensures b < |d.app| && d.refs + multiset{f} == Frames(d.app[b := Some(f)])
    ensures b < |d.place| && d.place[b].Free?
  {
    hide Frames;
    assert b in d.free && multiset(d.free)[b] > 0;
    FramesUpdate(d.app, b, Some(f));
    assert Frames(d.app[b := Some(f)]) + multiset{} == Frames(d.app) + multiset{f};
  }

  lemma PoolMove(d: Drain, b: nat, to: Place)
    requires PoolInv(d.free, d.place, d.app) && b < |d.place| && !d.place[b].Free? && !to.Free?
    ensures PoolInv(d.free, d.place[b := to], d.app)
  {
  }

  lemma OpenedInv(threads: nat, buffers: nat)
    ensures Inv(Opened(threads, buffers))
  {
    var d := Opened(threads, buffers);
    NoFrames(d.app);
    forall b | 0 <= b < buffers ensures multiset(d.free)[b] == 1 { Once(d.free, b); }
  }

  predicate CanRun(d: Drain, ops: seq<Op>)
    decreases |ops|
  {
    ops == [] || (Enabled(d, ops[0]) && CanRun(Apply(d, ops[0]), ops[1..]))
  }

  function Run(d: Drain, ops: seq<Op>): Drain
    requires CanRun(d, ops)
    decreases |ops|
  {
    if ops == [] then d else Run(Apply(d, ops[0]), ops[1..])
  }

  lemma ApplySize(d: Drain, op: Op)
    requires Enabled(d, op)
    ensures |Apply(d, op).place| == |d.place|
  {
  }

  lemma {:induction false} RunInv(d: Drain, ops: seq<Op>)
    requires Inv(d) && CanRun(d, ops)
    ensures Inv(Run(d, ops)) && |Run(d, ops).place| == |d.place|
    decreases |ops|
  {
    hide Inv, Enabled, Apply;
    if ops != [] {
      ApplyInv(d, ops[0]);
      ApplySize(d, ops[0]);
      RunInv(Apply(d, ops[0]), ops[1..]);
    }
  }

  /** While the drain stays open, under every interleaving and with any mix of
      accepted and refused buffers, each of the N buffers is either free, once, or
      in flight, and the references taken are exactly one for the frame of each
      buffer in flight. */
  lemma Conservation(threads: nat, buffers: nat, ops: seq<Op>)
    requires CanRun(Opened(threads, buffers), ops)
    ensures var d := Run(Opened(threads, buffers), ops);
            && |d.place| == |d.app| == buffers
            && (forall b :: 0 <= b < buffers ==> multiset(d.free)[b] == if d.place[b].Free? then 1 else 0)
            && (forall b :: 0 <= b < buffers ==> (d.app[b].Some? <==> !d.place[b].Free?))
            && d.refs == Frames(d.app)
  {
    OpenedInv(threads, buffers);
    RunInv(Opened(threads, buffers), ops);
  }

  // ---- stuck states ------------------------------------------------------

  /** Some thread has work: a dispatch is under way or a buffer is in flight. */
  ghost predicate Busy(d: Drain)
  {
    (exists t :: 0 <= t < |d.pcs| && !d.pcs[t].Outside?) || (exists b :: 0 <= b < |d.place| && !d.place[b].Free?)
  }

  /** A dispatcher waits in allocBuf with the free list empty: it holds the lock
      that every acknowledgement needs. */
  ghost predicate Starved(d: Drain)
  {
    d.holder.Some? && d.holder.value < |d.pcs| && d.pcs[d.holder.value].InAlloc? && d.free == []
  }

  /** The only states in which no thread with work can move are starved ones: in
      every other one some step other than a new arrival is enabled. */
  lemma StuckIsStarved(d: Drain)
    requires Inv(d) && Busy(d) && !Starved(d)
    ensures exists op: Op :: Enabled(d, op) && !op.Arrive?
  {
    if d.holder.Some? {
      assert d.free[0] in d.free;
      assert Enabled(d, Alloc(d.holder.value));
    } else if t :| 0 <= t < |d.pcs| && !d.pcs[t].Outside? {
      assert Enabled(d, if d.pcs[t].WantLock? then Lock(t) else if d.pcs[t].Sending? then SendFail(t) else GiveUp(t));
    } else {
      var b :| 0 <= b < |d.place| && !d.place[b].Free?;
      assert Enabled(d, if d.place[b].Component? then Callback(b) else Ack(b));
    }
  }

  /** A starved drain never recovers: no step frees a buffer or the lock, so after
      any further run the same dispatcher still waits in allocBuf. */
  lemma {:induction false} StarvedForever(d: Drain, ops: seq<Op>)
    requires Inv(d) && Starved(d) && CanRun(d, ops)
    ensures var e := Run(d, ops); Starved(e) && e.holder == d.holder && e.refs == d.refs
    decreases |ops|
  {
    if ops != [] {
      StarvedStep(d, ops[0]);
      ApplyInv(d, ops[0]);
      StarvedForever(Apply(d, ops[0]), ops[1..]);
    }
  }

  lemma StarvedStep(d: Drain, op: Op)
    requires Inv(d) && Starved(d) && Enabled(d, op)
    ensures var e := Apply(d, op); Starved(e) && e.holder == d.holder && e.refs == d.refs
  {
  }

  /** The drain starves exactly when a dispatcher takes the lock while every buffer
      is in flight. */
  lemma StarvesWhen(d: Drain, op: Op)
    requires Inv(d) && Enabled(d, op) && !Starved(d)
    ensures Starved(Apply(d, op)) <==> op.Lock? && d.free == []
  {
  }

  // ---- the object --------------------------------------------------------

  const EIO := 5
  const ENOMEM := 12

  lemma RunOne(d: Drain, op: Op, ops: seq<Op>)
    requires Enabled(d, op)
    ensures CanRun(d, [op] + ops) <==> CanRun(Apply(d, op), ops)
    ensures CanRun(Apply(d, op), ops) ==> Run(d, [op] + ops) == Run(Apply(d, op), ops)
  {
    hide Enabled, Apply;
    assert ([op] + ops)[1..] == ops;
  }

  /** Thread `t` can go through dispatchOmx without waiting. */
  predicate CanDispatch(d: Drain, t: nat)
  {
    && t < |d.pcs| && d.pcs[t].Outside? && d.holder.None?
    && d.free != [] && Known(d, d.free[0])
  }

  /** dispatchOmx run through by one thread. */
  function Steps(t: nat, frame: nat, accepted: bool): seq<Op>
  {
    [Arrive(t, frame), Lock(t), Alloc(t)] + if accepted then [SendOk(t)] else [SendFail(t), GiveUp(t)]
  }

  /** What it does in all: the first free buffer is with the component and holds a
      reference to the frame; or, when it is refused, it is free again, behind the
      others, and no reference is kept. */
  function Dispatched(d: Drain, frame: nat, accepted: bool): Drain
    requires d.free != [] && Known(d, d.free[0])
  {
    var b := d.free[0];
    if accepted then
      d.(free := d.free[1..], place := d.place[b := Component], app := d.app[b := Some(frame)],
         refs := d.refs + multiset{frame})
    else
      d.(free := d.free[1..] + [b], place := d.place[b := Free], app := d.app[b := None])
  }

  lemma Sent(d: Drain, t: nat, frame: nat)
    requires CanDispatch(d, t)
    ensures var d1 := Apply(d, Arrive(t, frame));
            Enabled(d1, Lock(t)) &&
            var d2 := Apply(d1, Lock(t));
            Enabled(d2, Alloc(t)) &&
            var b := d.free[0];
            Apply(d2, Alloc(t)) ==
              Drain(d.pcs[t := Sending(b)], None, d.free[1..], d.place[b := Dispatcher(t)],
                    d.app[b := Some(frame)], d.refs + multiset{frame})
  {
    assert d.pcs[t := WantLock(frame)][t := InAlloc(frame)][t := Sending(d.free[0])]
        == d.pcs[t := Sending(d.free[0])];
  }

  lemma SentOff(d: Drain, t: nat, b: nat, frame: nat, accepted: bool)
    requires t < |d.pcs| && d.pcs[t].Outside? && d.holder.None?
    requires d.free != [] && b == d.free[0] && Known(d, b)
    ensures var e := Drain(d.pcs[t := Sending(b)], None, d.free[1..], d.place[b := Dispatcher(t)],
                           d.app[b := Some(frame)], d.refs + multiset{frame});
            var ops := if accepted then [SendOk(t)] else [SendFail(t), GiveUp(t)];
            CanRun(e, ops) && Run(e, ops) == Dispatched(d, frame, accepted)
  {
    var e := Drain(d.pcs[t := Sending(b)], None, d.free[1..], d.place[b := Dispatcher(t)],
                   d.app[b := Some(frame)], d.refs + multiset{frame});
    assert d.pcs[t := Outside] == d.pcs;
    if accepted {
      RunOne(e, SendOk(t), []);
      assert [SendOk(t)] + [] == [SendOk(t)];
      assert d.place[b := Dispatcher(t)][b := Component] == d.place[b := Component];
      assert d.pcs[t := Sending(b)][t := Outside] == d.pcs;
    } else {
      var e1 := Apply(e, SendFail(t));
      RunOne(e, SendFail(t), [GiveUp(t)]);
      RunOne(e1, GiveUp(t), []);
      assert [SendFail(t)] + [GiveUp(t)] == [SendFail(t), GiveUp(t)];
      assert [GiveUp(t)] + [] == [GiveUp(t)];
      assert d.pcs[t := Sending(b)][t := Failing(b)][t := Outside] == d.pcs;
      assert d.place[b := Dispatcher(t)][b := Free] == d.place[b := Free];
      assert d.app[b := Some(frame)][b := None] == d.app[b := None];
      assert d.refs + multiset{frame} - multiset{frame} == d.refs;
    }
  }

  /** One dispatch, not interrupted, is a run of the step system. */
  lemma DispatchIsRun(d: Drain, t: nat, frame: nat, accepted: bool)
    requires CanDispatch(d, t)
    ensures CanRun(d, Steps(t, frame, accepted))
    ensures Run(d, Steps(t, frame, accepted)) == Dispatched(d, frame, accepted)
  {
    hide Apply, Run, CanRun, Dispatched;
    var d1 := Apply(d, Arrive(t, frame));
    Sent(d, t, frame);
    var d2 := Apply(d1, Lock(t));
    var last := if accepted then [SendOk(t)] else [SendFail(t), GiveUp(t)];
    SentOff(d, t, d.free[0], frame, accepted);
    RunOne(d2, Alloc(t), last);
    RunOne(d1, Lock(t), [Alloc(t)] + last);
    RunOne(d, Arrive(t, frame), [Lock(t)] + ([Alloc(t)] + last));
    assert Steps(t, frame, accepted) == [Arrive(t, frame)] + ([Lock(t)] + ([Alloc(t)] + last));
  }

  class OmxDrain {
    var drainer: bool                // a component is connected: isOpen()
    const pool: BufferPool
    var refs: multiset<nat>          // references taken on frames
    ghost var place: seq<Place>

    constructor (pool: BufferPool)
      requires pool.Valid() && pool.ready
      ensures drainer && this.pool == pool && refs == multiset{}
      ensures place == seq(|pool.app|, _ => Free)
    {
      drainer, refs := true, multiset{};
      this.pool := pool;
      place := seq(|pool.app|, _ => Free);
    }

    /** The drain as thread `t`, which is outside it, finds it. */
    ghost function State(pcs: seq<Pc>): Drain
      reads this, pool
    {
      Drain(pcs, None, pool.free, place, pool.app, refs)
    }

    method DispatchOmx(frame: nat, accepted: bool, ghost pcs: seq<Pc>, ghost t: nat) returns (nret: int)
      requires pool.Valid() && |place| == |pool.app|
      requires drainer && pool.ready ==> CanDispatch(State(pcs), t)
      modifies this`refs, this`place, pool
      ensures pool.Valid() && |place| == |pool.app|
      ensures nret == if !drainer then EIO else if !pool.ready then ENOMEM else if accepted then 0 else EIO
      ensures State(pcs) == if drainer && old(pool.ready) then Dispatched(old(State(pcs)), frame, accepted)
                            else old(State(pcs))
      ensures pool.ready == old(pool.ready)
    {
      if !drainer { return EIO; }
      var buffer := pool.AllocBuf();
      if buffer.None? { return ENOMEM; }
      var b := buffer.value;
      pool.SetFrame(b, frame);
      refs := refs + multiset{frame};
      place := place[b := Component];
      if accepted {
        nret := 0;
      } else {
        nret := EIO;
        var _ := EmptyBufferDone(b);
        assert old(pool.app)[b := Some(frame)][b := None] == old(pool.app)[b := None];
        assert old(place)[b := Component][b := Free] == old(place)[b := Free];
        assert old(refs) + multiset{frame} - multiset{frame} == old(refs);
      }
    }

    /** After close the call is refused: the frame keeps its reference. */
    method EmptyBufferDone(b: nat) returns (done: bool)
      requires pool.Valid() && |place| == |pool.app| && (drainer ==> b < |place|)
      modifies this`refs, this`place, pool`app, pool`free
      ensures pool.Valid() && |place| == |pool.app|
      ensures done == drainer
      ensures forall pcs :: State(pcs) == if done then BufferDone(old(State(pcs)), b) else old(State(pcs))
    {
      if !drainer { return false; }
      if pool.app[b].Some? { refs := refs - multiset{pool.app[b].value}; }
      place := place[b := Free];
      pool.ReleaseBuf(b);
      done := true;
    }
  }
}
