// A run that gets the drain of src/omx/camera_component.cpp stuck.
module OmxStarvation {
  import opened Common
  import opened OmxDrain

  lemma RunNone(d: Drain)
    ensures CanRun(d, []) && Run(d, []) == d
  {
  }

  lemma {:induction false} RunConcat(d: Drain, a: seq<Op>, b: seq<Op>)
    requires CanRun(d, a) && CanRun(Run(d, a), b)
    ensures CanRun(d, a + b) && Run(d, a + b) == Run(Run(d, a), b)
    decreases |a|
  {
    hide Enabled, Apply;
    if a == [] {
      assert a + b == b;
    } else {
      RunConcat(Apply(d, a[0]), a[1..], b);
      assert (a + b)[1..] == a[1..] + b;
    }
  }

  /** Two dispatchers and one free buffer: `t` sends it with the frame `f`, and `u`
      takes the lock for the frame `g`. */
  function ToStarvation(t: nat, f: nat, u: nat, g: nat): seq<Op>
  {
    Steps(t, f, true) + ([Arrive(u, g)] + ([Lock(u)] + []))
  }

  lemma StarvationReached(d: Drain, t: nat, f: nat, u: nat, g: nat)
    requires CanDispatch(d, t) && |d.free| == 1 && u < |d.pcs| && d.pcs[u].Outside?
    ensures CanRun(d, ToStarvation(t, f, u, g)) && Starved(Run(d, ToStarvation(t, f, u, g)))
  {
    var e := Dispatched(d, f, true);
    var e1 := Apply(e, Arrive(u, g));
    var e2 := Apply(e1, Lock(u));
    assert e2.free == [] && e2.pcs[u].InAlloc?;
    DispatchIsRun(d, t, f, true);
    hide Run, CanRun, Apply, Dispatched, Steps;
    RunNone(e2);
    RunOne(e1, Lock(u), []);
    RunOne(e, Arrive(u, g), [Lock(u)] + []);
    RunConcat(d, Steps(t, f, true), [Arrive(u, g)] + ([Lock(u)] + []));
  }

  /** A drain just opened with one buffer is such a state. */
  lemma OpenedStarves(threads: nat, f: nat, g: nat)
    requires threads >= 2
    ensures CanRun(Opened(threads, 1), ToStarvation(0, f, 1, g))
    ensures Starved(Run(Opened(threads, 1), ToStarvation(0, f, 1, g)))
  {
    hide Run, CanRun, Starved, ToStarvation;
    StarvationReached(Opened(threads, 1), 0, f, 1, g);
  }
}
