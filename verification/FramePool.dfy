// The frame pool of src/virtual/camera_virtual.cpp.  A frame in use keeps its pool
// alive through container_, and goes back to free_ when its last reference is
// released.  alloc, acquireRef and releaseRef are atomic steps.
module FramePool {
  import opened Common

  /** frames_[i] is frame i; `owners` counts the shared pointers to the pool held
      outside the frames; `dead` is set once the destructor has run final(). */
  datatype Pool = Pool(refs: seq<nat>, container: seq<bool>, free: seq<nat>,
                       ready: bool, owners: nat, dead: bool)

  function Count(flags: seq<bool>): nat
  {
    if flags == [] then 0 else (if flags[0] then 1 else 0) + Count(flags[1..])
  }

  /** use_count of the pool's shared pointer. */
  function UseCount(p: Pool): nat { p.owners + Count(p.container) }

  predicate Exists(p: Pool, i: nat) { i < |p.refs| && i < |p.container| }

  // ---- the steps ---------------------------------------------------------

  function Create(count: nat): Pool
  {
    Pool(seq(count, _ => 0), seq(count, _ => false), seq(count, i => i), true, 1, false)
  }

  /** The destructor runs when the last shared pointer is gone. */
  function MayDie(p: Pool): Pool
  {
    if UseCount(p) == 0 then p.(dead := true, ready := false) else p
  }

  function Acquire(p: Pool, i: nat): Pool
    requires Exists(p, i)
  {
    p.(container := p.container[i := true], refs := p.refs[i := p.refs[i] + 1])
  }

  function Release(p: Pool, i: nat): Pool
    requires Exists(p, i)
  {
    if p.refs[i] == 0 then p
    else
      var q := p.(refs := p.refs[i := p.refs[i] - 1]);
      if q.refs[i] == 0 && q.container[i] then
        MayDie(q.(free := q.free + [i], container := q.container[i := false]))
      else q
  }

  function Alloc(p: Pool): Pool
    requires p.free != [] && Exists(p, p.free[0])
  {
    Acquire(p.(free := p.free[1..]), p.free[0])
  }

  /** What threads do with a pool: alloc through a shared pointer; acquireRef by a
      holder of the frame; releaseRef on any frame; copying and dropping shared
      pointers. */
  datatype Op = OpAlloc | OpAcquire(i: nat) | OpRelease(i: nat) | OpShare | OpDrop

  /** Whether the step can be taken: an alloc on an empty free list waits, and
      nothing refers to a dead pool. */
  predicate Enabled(p: Pool, op: Op)
  {
    !p.dead &&
    match op
    case OpAlloc => p.owners > 0 && p.ready && p.free != [] && Exists(p, p.free[0])
    case OpAcquire(i) => Exists(p, i) && p.refs[i] > 0
    case OpRelease(i) => Exists(p, i)
    case OpShare => p.owners > 0
    case OpDrop => p.owners > 0
  }

  function Apply(p: Pool, op: Op): Pool
    requires Enabled(p, op)
  {
    match op
    case OpAlloc => Alloc(p)
    case OpAcquire(i) => Acquire(p, i)
    case OpRelease(i) => Release(p, i)
    case OpShare => p.(owners := p.owners + 1)
    case OpDrop => MayDie(p.(owners := p.owners - 1))
  }

  // ---- the invariant -----------------------------------------------------

  /** Each frame is in free_ exactly once or has references, never both;
      container_ is set exactly while it has references; the pool is dead exactly
      when nothing points to it. */
  ghost predicate Inv(p: Pool)
  {
    && |p.container| == |p.refs|
    && (forall i :: i in p.free ==> i < |p.refs|)
    && (forall i :: 0 <= i < |p.refs| ==> multiset(p.free)[i] == if p.refs[i] == 0 then 1 else 0)
    && (forall i :: 0 <= i < |p.refs| ==> (p.container[i] <==> p.refs[i] > 0))
    && (p.dead <==> UseCount(p) == 0)
    && (!p.dead ==> p.ready)
  }

  lemma {:induction false} CountZero(flags: seq<bool>)
    ensures Count(flags) == 0 <==> forall i :: 0 <= i < |flags| ==> !flags[i]
  {
    if flags != [] {
      CountZero(flags[1..]);
      assert forall i :: 1 <= i < |flags| ==> flags[i] == flags[1..][i - 1];
      assert forall i :: 0 <= i < |flags| - 1 ==> flags[1..][i] == flags[i + 1];
    }
  }

  lemma {:induction false} CountUpdate(flags: seq<bool>, i: nat, b: bool)
    requires i < |flags|
    ensures Count(flags[i := b]) + (if flags[i] then 1 else 0) == Count(flags) + (if b then 1 else 0)
  {
    if i == 0 {
      assert flags[0 := b][1..] == flags[1..];
    } else {
      assert flags[i := b][1..] == flags[1..][i - 1 := b];
      CountUpdate(flags[1..], i - 1, b);
    }
  }

  lemma CreateInv(count: nat)
    ensures Inv(Create(count))
  {
    var p := Create(count);
    CountZero(p.container);
    forall i | 0 <= i < count ensures multiset(p.free)[i] == 1 { Once(p.free, i); }
  }

  lemma AcquireInv(p: Pool, i: nat)
    requires Inv(p) && !p.dead && Exists(p, i) && p.refs[i] > 0
    ensures Inv(Acquire(p, i))
  {
    CountUpdate(p.container, i, true);
  }

  lemma AllocInv(p: Pool)
    requires Inv(p) && Enabled(p, OpAlloc)
    ensures Inv(Alloc(p))
  {
    var i := p.free[0];
    CountUpdate(p.container, i, true);
    assert p.free == [i] + p.free[1..];
    assert multiset(p.free) == multiset{i} + multiset(p.free[1..]);
    assert forall k :: k in p.free[1..] ==> k in p.free;
  }

  lemma ReleaseInv(p: Pool, i: nat)
    requires Inv(p) && !p.dead && Exists(p, i)
    ensures Inv(Release(p, i))
  {
    hide Count;
    if p.refs[i] == 1 { LastRelease(p, i); }
  }

  /** The frame's last reference goes: it is freed, and if that was the last thing
      that pointed to the pool, no frame is referenced any more. */
  lemma LastRelease(p: Pool, i: nat)
    requires Inv(p) && !p.dead && Exists(p, i) && p.refs[i] == 1
    ensures var q := p.(refs := p.refs[i := 0], container := p.container[i := false], free := p.free + [i]);
            && Inv(MayDie(q))
            && (UseCount(q) == 0 ==> forall k :: 0 <= k < |q.refs| ==> q.refs[k] == 0)
  {
    hide Count;
    assert multiset(p.free + [i]) == multiset(p.free) + multiset{i};
    CountZero(p.container[i := false]);
    CountZero(p.container);
  }

  lemma ApplyInv(p: Pool, op: Op)
    requires Inv(p) && Enabled(p, op)
    ensures Inv(Apply(p, op))
  {
    match op
    case OpAlloc => AllocInv(p);
    case OpAcquire(i) => AcquireInv(p, i);
    case OpRelease(i) => ReleaseInv(p, i);
    case OpShare =>
    case OpDrop =>
  }

  // ---- runs --------------------------------------------------------------

  predicate CanRun(p: Pool, ops: seq<Op>)
    decreases |ops|
  {
    ops == [] || (Enabled(p, ops[0]) && CanRun(Apply(p, ops[0]), ops[1..]))
  }

  function Run(p: Pool, ops: seq<Op>): Pool
    requires CanRun(p, ops)
    decreases |ops|
  {
    if ops == [] then p else Run(Apply(p, ops[0]), ops[1..])
  }

  lemma {:induction false} RunInv(p: Pool, ops: seq<Op>)
    requires Inv(p) && CanRun(p, ops)
    ensures Inv(Run(p, ops)) && |Run(p, ops).refs| == |p.refs|
    decreases |ops|
  {
    if ops != [] {
      ApplyInv(p, ops[0]);
      RunInv(Apply(p, ops[0]), ops[1..]);
    }
  }

  /** The pool outlives every outstanding frame: after any run from a new pool the
      destructor has run exactly when no shared pointer and no frame reference is
      left, so the assert in final never fires; and while a frame is referenced,
      the pool is alive and the frame is not up for allocation. */
  lemma PoolOutlivesFrames(count: nat, ops: seq<Op>)
    requires CanRun(Create(count), ops)
    ensures var p := Run(Create(count), ops);
            && |p.refs| == |p.container| == count
            && (p.dead <==> p.owners == 0 && forall i :: 0 <= i < count ==> p.refs[i] == 0)
            && (forall i :: 0 <= i < count && p.refs[i] > 0 ==> !p.dead && p.container[i] && i !in p.free)
            && (forall i :: 0 <= i < count && p.refs[i] == 0 ==> multiset(p.free)[i] == 1)
  {
    CreateInv(count);
    RunInv(Create(count), ops);
    CountZero(Run(Create(count), ops).container);
  }

  // ---- order -------------------------------------------------------------

  /** The frame a step takes off the free list, and the one that comes back with it. */
  function Taken(p: Pool, op: Op): seq<nat>
    requires Enabled(p, op)
  {
    if op.OpAlloc? then [p.free[0]] else []
  }

  function GivenBack(p: Pool, op: Op): seq<nat>
    requires Enabled(p, op)
  {
    match op case OpRelease(i) => if p.refs[i] == 1 && p.container[i] then [i] else [] case _ => []
  }

  function AllTaken(p: Pool, ops: seq<Op>): seq<nat>
    requires CanRun(p, ops)
    decreases |ops|
  {
    if ops == [] then [] else Taken(p, ops[0]) + AllTaken(Apply(p, ops[0]), ops[1..])
  }

  function AllGivenBack(p: Pool, ops: seq<Op>): seq<nat>
    requires CanRun(p, ops)
    decreases |ops|
  {
    if ops == [] then [] else GivenBack(p, ops[0]) + AllGivenBack(Apply(p, ops[0]), ops[1..])
  }

  lemma StepInOrder(p: Pool, op: Op)
    requires Enabled(p, op)
    ensures p.free + GivenBack(p, op) == Taken(p, op) + Apply(p, op).free
  {
  }

  /** Over any run frames are handed out in exactly the order in which they were free at
      the start or came back, up to those still free: the longest unused one first. */
  lemma {:induction false} LongestFreeFirst(p: Pool, ops: seq<Op>)
    requires CanRun(p, ops)
    ensures p.free + AllGivenBack(p, ops) == AllTaken(p, ops) + Run(p, ops).free
    decreases |ops|
  {
    hide Enabled, Apply, Taken, GivenBack;
    if ops != [] {
      var r := Apply(p, ops[0]);
      StepInOrder(p, ops[0]);
      LongestFreeFirst(r, ops[1..]);
      Regroup(p.free, GivenBack(p, ops[0]), AllGivenBack(r, ops[1..]), Taken(p, ops[0]), r.free,
        AllTaken(r, ops[1..]), Run(r, ops[1..]).free);
    }
  }

  // ---- the object --------------------------------------------------------

  class CameraVirtualFramePool {
    var refs: seq<nat>         // frames_[i].ref_cnt_
    var container: seq<bool>   // frames_[i].container_ is set
    var free: seq<nat>         // free_
    var ready: bool
    var owners: nat
    var dead: bool

    function State(): Pool
      reads this
    {
      Pool(refs, container, free, ready, owners, dead)
    }

    /** init: frames are released into the pool one by one. */
    constructor (count: nat)
      ensures State() == Create(count)
    {
      refs, container := seq(count, _ => 0), seq(count, _ => false);
      free, ready, owners, dead := [], false, 1, false;
      new;
      var i := 0;
      while i < count
        invariant i <= count
        invariant free == seq(i, k => k) && !ready && owners == 1 && !dead
        invariant refs == seq(count, _ => 0) && container == seq(count, _ => false)
      {
        free := free + [i];
        i := i + 1;
      }
      ready := true;
    }

    method AcquireRef(i: nat) returns (count: nat)
      requires Exists(State(), i)
      modifies this
      ensures State() == Acquire(old(State()), i) && count == refs[i]
    {
      if !container[i] { container := container[i := true]; }
      refs := refs[i := refs[i] + 1];
      count := refs[i];
    }

    method AllocFrame() returns (i: nat)
      requires Enabled(State(), OpAlloc)
      modifies this
      ensures State() == Alloc(old(State())) && i == old(free[0])
    {
      i := free[0];
      free := free[1..];
      var _ := AcquireRef(i);
    }

    method ReleaseRef(i: nat) returns (count: nat)
      requires Inv(State()) && !dead && Exists(State(), i)
      modifies this
      ensures State() == Release(old(State()), i) && count == refs[i]
    {
      if refs[i] <= 0 { return refs[i]; }
      refs := refs[i := refs[i] - 1];
      count := refs[i];
      if count == 0 {
        if container[i] {
          LastRelease(old(State()), i);
          free := free + [i];
          container := container[i := false];
          if UseCount(State()) == 0 { Final(); }
        }
      }
    }

    method Drop()
      requires Inv(State()) && Enabled(State(), OpDrop)
      modifies this
      ensures State() == Apply(old(State()), OpDrop)
    {
      owners := owners - 1;
      if UseCount(State()) == 0 { CountZero(container); Final(); }
    }

    /** The destructor; its assert is the source's. */
    method Final()
      requires !dead && forall i :: 0 <= i < |refs| ==> refs[i] == 0
      modifies this`ready, this`dead
      ensures !ready && dead
    {
      ready := false;
      var i := 0;
      while i < |refs|
      {
        assert refs[i] == 0;
        i := i + 1;
      }
      dead := true;
    }
  }
}
