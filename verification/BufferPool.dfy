// The OMX buffer pool of src/omx/buffer_pool.cpp.  A call of allocBuf that would
// wait is not made; lock_ makes each method one step.
module BufferPool {

  import opened Common

  class BufferPool {
    var app: seq<Option<nat>>    // pAppPrivate of buffers_[i]: the frame in it
    var free: seq<nat>           // free_
    var ready: bool
    ghost var live: set<nat>     // allocated from the component and not yet freed

    /** While the pool is ready all its buffers are live and free_ lists none but
        them; free_ is not emptied by final, so afterwards it lists freed ones. */
    ghost predicate Valid()
      reads this
    {
      && (forall b: nat :: b in live <==> b < |app|)
      && (ready ==> forall b <- free :: b in live)
      && (!ready ==> app == [])
    }

    constructor ()
      ensures Valid() && !ready && free == []
    {
      app, free, ready, live := [], [], false, {};
    }

    /** init: `grants(i)` is the component's answer to the i-th request. */
    method Init(count: nat, arrayGranted: bool, grants: nat -> bool) returns (ok: bool)
      requires Valid() && !ready && free == []
      modifies this
      ensures Valid() && ready == ok
      ensures ok <==> arrayGranted && forall i :: 0 <= i < count ==> grants(i)
      ensures ok ==> free == seq(count, i => i) && app == seq(count, _ => None)
    {
      if !arrayGranted { return false; }
      var i := 0;
      while i < count
        invariant i <= count && |app| == i && !ready
        invariant free == seq(i, k => k) && app == seq(i, _ => None)
        invariant forall b: nat :: b in live <==> b < i
        invariant forall k :: 0 <= k < i ==> grants(k)
      {
        if !grants(i) {
          Final();
          return false;
        }
        app, free, live := app + [None], free + [i], live + {i};
        i := i + 1;
      }
      ready := true;
      ok := true;
    }

    /** Every buffer goes back to the component. */
    method Final()
      requires forall b: nat :: b in live <==> b < |app|
      modifies this
      ensures Valid() && !ready && live == {} && free == old(free)
    {
      ready := false;
      var i := 0;
      while i < |app|
        invariant i <= |app| && app == old(app) && !ready && free == old(free)
        invariant forall b: nat :: b in live <==> i <= b < |app|
      {
        live := live - {i};
        i := i + 1;
      }
      app := [];
    }

    /** Buffers go out in the order they came in, and a freed one never does. */
    method AllocBuf() returns (b: Option<nat>)
      requires Valid() && (free != [] || !ready)
      modifies this`free
      ensures Valid() && (b.None? <==> !ready)
      ensures free == if ready then old(free)[1..] else old(free)
      ensures b.Some? ==> b.value == old(free[0]) && b.value in live
    {
      if !ready { return None; }
      b := Some(free[0]);
      assert free[0] in free;
      free := free[1..];
    }

    method ReleaseBuf(b: nat)
      requires Valid() && b < |app|
      modifies this`free, this`app
      ensures Valid() && app == old(app)[b := None] && free == old(free) + [b]
    {
      app := app[b := None];
      free := free + [b];
      assert ready && b in live;
    }

    method SetFrame(b: nat, frame: nat)
      requires Valid() && b < |app|
      modifies this`app
      ensures Valid() && app == old(app)[b := Some(frame)]
    {
      app := app[b := Some(frame)];
    }
  }
}
