// OmxFileSink of src/omx/file_component.cpp: the encoder's thread queues buffers, a
// writer thread writes and returns them, and close may come in at any moment.
module FileSink {

  import opened Common

  datatype Buffer = Buffer(id: nat, data: seq<int>)

  /** The buffer the writer has taken off the queue, and whether it has written it. */
  datatype InWork = InWork(buf: Buffer, written: bool)

  /** accepted, returned and lost are histories: `lost` is a buffer given to a null
      component because close came between its removal and its return. */
  datatype Sink = Sink(isOpen: bool, pending: seq<Buffer>, work: Option<InWork>, file: seq<int>,
                       accepted: seq<Buffer>, returned: seq<Buffer>, lost: seq<Buffer>)

  const OPENED: Sink := Sink(true, [], None, [], [], [], [])

  datatype Op = EmptyBuffer(buf: Buffer) | Pick | Write | GiveBack | Close

  /** The writer's steps; an empty buffer does not reach the queue. */
  predicate Enabled(s: Sink, op: Op)
  {
    match op
    case EmptyBuffer(b) => b.data != []
    case Pick => s.isOpen && s.work.None? && s.pending != []
    case Write => s.work.Some? && !s.work.value.written
    case GiveBack => s.work.Some? && s.work.value.written
    case Close => true
  }

  function Apply(s: Sink, op: Op): Sink
    requires Enabled(s, op)
  {
    match op
    case EmptyBuffer(b) => s.(pending := s.pending + [b], accepted := s.accepted + [b])
    case Pick => s.(work := Some(InWork(s.pending[0], false)), pending := s.pending[1..])
    case Write =>
      var b := s.work.value.buf;
      s.(work := Some(InWork(b, true)), file := if s.isOpen then s.file + b.data else s.file)
    case GiveBack =>
      var b := s.work.value.buf;
      if s.isOpen then s.(work := None, returned := s.returned + [b])
      else s.(work := None, lost := s.lost + [b])
    case Close => s.(isOpen := false)
  }

  function Payload(bufs: seq<Buffer>): seq<int>
  {
    if bufs == [] then [] else Payload(bufs[..|bufs| - 1]) + bufs[|bufs| - 1].data
  }

  function Working(s: Sink): seq<Buffer>
  {
    if s.work.Some? then [s.work.value.buf] else []
  }

  /** How many accepted buffers are in the file, when the written one counts. */
  ghost predicate FileHolds(s: Sink, k: nat)
  {
    k <= |s.accepted| && s.file == Payload(s.accepted[..k])
  }

  /** Buffers are accounted for in order; the file holds the returned ones and at
      most the one being worked on; only close can lose one. */
  ghost predicate Inv(s: Sink)
  {
    && s.accepted == s.returned + s.lost + Working(s) + s.pending
    && |s.lost| + |Working(s)| <= 1
    && (s.isOpen ==> s.lost == [])
    && (FileHolds(s, |s.returned|) || (|s.lost| + |Working(s)| == 1 && FileHolds(s, |s.returned| + 1)))
    && (s.isOpen && s.work.Some? ==> FileHolds(s, |s.returned| + if s.work.value.written then 1 else 0))
    && (s.isOpen && s.work.None? ==> FileHolds(s, |s.returned|))
    && (!s.isOpen && s.work.Some? && !s.work.value.written ==> FileHolds(s, |s.returned|))
  }

  lemma PayloadNext(bufs: seq<Buffer>, k: nat)
    requires k < |bufs|
    ensures Payload(bufs[..k + 1]) == Payload(bufs[..k]) + bufs[k].data
  {
    assert bufs[..k + 1][..k] == bufs[..k];
  }

  lemma AcceptInv(s: Sink, b: Buffer)
    requires Inv(s) && b.data != []
    ensures Inv(Apply(s, EmptyBuffer(b)))
  {
    hide Payload;
    var t := Apply(s, EmptyBuffer(b));
    assert t.accepted == s.returned + s.lost + Working(s) + (s.pending + [b]);
    assert forall k :: 0 <= k <= |s.accepted| ==> t.accepted[..k] == s.accepted[..k];
  }

  lemma PickInv(s: Sink)
    requires Inv(s) && Enabled(s, Pick)
    ensures Inv(Apply(s, Pick))
  {
    assert s.pending == [s.pending[0]] + s.pending[1..];
  }

  lemma WriteInv(s: Sink)
    requires Inv(s) && Enabled(s, Write)
    ensures Inv(Apply(s, Write))
  {
    if s.isOpen {
      var k := |s.returned|;
      assert s.accepted[k] == s.work.value.buf;
      PayloadNext(s.accepted, k);
    }
  }

  lemma GiveBackInv(s: Sink)
    requires Inv(s) && Enabled(s, GiveBack)
    ensures Inv(Apply(s, GiveBack))
  {
  }

  lemma CloseInv(s: Sink)
    requires Inv(s)
    ensures Inv(Apply(s, Close))
  {
  }

  lemma ApplyInv(s: Sink, op: Op)
    requires Inv(s) && Enabled(s, op)
    ensures Inv(Apply(s, op))
  {
    hide Inv, Apply;
    match op
    case EmptyBuffer(b) => AcceptInv(s, b);
    case Pick => PickInv(s);
    case Write => WriteInv(s);
    case GiveBack => GiveBackInv(s);
    case Close => CloseInv(s);
  }

  predicate CanRun(s: Sink, ops: seq<Op>)
    decreases |ops|
  {
    ops == [] || (Enabled(s, ops[0]) && CanRun(Apply(s, ops[0]), ops[1..]))
  }

  function Run(s: Sink, ops: seq<Op>): Sink
    requires CanRun(s, ops)
    decreases |ops|
  {
    if ops == [] then s else Run(Apply(s, ops[0]), ops[1..])
  }

  lemma {:induction false} RunInv(s: Sink, ops: seq<Op>)
    requires Inv(s) && CanRun(s, ops)
    ensures Inv(Run(s, ops))
    decreases |ops|
  {
    hide Inv, Enabled, Apply;
    if ops != [] {
      ApplyInv(s, ops[0]);
      RunInv(Apply(s, ops[0]), ops[1..]);
    }
  }

  lemma {:induction false} PayloadPrefix(bufs: seq<Buffer>, k: nat)
    requires k <= |bufs|
    ensures Payload(bufs[..k]) <= Payload(bufs)
    decreases |bufs| - k
  {
    if k == |bufs| {
      assert bufs[..k] == bufs;
    } else {
      PayloadNext(bufs, k);
      PayloadPrefix(bufs, k + 1);
    }
  }

  /** From open to close and after, under every interleaving: the file is the
      payload of the first k accepted buffers, in order, where k is the number
      returned or one more; every accepted buffer is returned, lost to the close,
      being worked on or pending, in that order; and while the sink is open none
      is lost. */
  lemma FileIsPrefix(ops: seq<Op>)
    requires CanRun(OPENED, ops)
    ensures var s := Run(OPENED, ops);
            && (FileHolds(s, |s.returned|) || FileHolds(s, |s.returned| + 1))
            && s.file <= Payload(s.accepted)
            && s.accepted == s.returned + s.lost + Working(s) + s.pending
            && |s.lost| <= 1 && (s.isOpen ==> s.lost == [])
  {
    assert Payload([]) == [];
    RunInv(OPENED, ops);
    var s := Run(OPENED, ops);
    if FileHolds(s, |s.returned|) { PayloadPrefix(s.accepted, |s.returned|); }
    if FileHolds(s, |s.returned| + 1) { PayloadPrefix(s.accepted, |s.returned| + 1); }
  }

  // ---- closing -----------------------------------------------------------

  /** Once closed, the sink writes nothing, returns nothing and takes nothing off the
      queue, whatever still happens: what was in work is lost, the rest stays. */
  lemma {:induction false} ClosedKeepsAll(s: Sink, ops: seq<Op>)
    requires !s.isOpen && CanRun(s, ops)
    ensures var t := Run(s, ops);
            && !t.isOpen && t.returned == s.returned && t.file == s.file && s.pending <= t.pending
            && t.lost + Working(t) == s.lost + Working(s)
    decreases |ops|
  {
    if ops != [] {
      ClosedStep(s, ops[0]);
      ClosedKeepsAll(Apply(s, ops[0]), ops[1..]);
    }
  }

  lemma ClosedStep(s: Sink, op: Op)
    requires !s.isOpen && Enabled(s, op)
    ensures var t := Apply(s, op);
            && !t.isOpen && t.returned == s.returned && t.file == s.file && s.pending <= t.pending
            && t.lost + Working(t) == s.lost + Working(s)
  {
  }

  /** A close loses exactly the buffer the writer has in work, written or not, once
      the writer lets go of it; every buffer pending stays pending for ever. */
  lemma CloseLosesWork(s: Sink, ops: seq<Op>)
    requires Inv(s) && s.isOpen && CanRun(Apply(s, Close), ops)
    ensures var t := Run(Apply(s, Close), ops);
            && (t.work.None? ==> t.lost == Working(s))
            && (t.work.None? ==> (t.lost != [] <==> s.work.Some?))
            && t.returned == s.returned && t.file == s.file && s.pending <= t.pending
  {
    var c := Apply(s, Close);
    ClosedKeepsAll(c, ops);
    var t := Run(c, ops);
    assert c.lost + Working(c) == Working(s);
    if t.work.None? { assert t.lost + Working(t) == t.lost; }
  }

  lemma RunOne(s: Sink, op: Op, ops: seq<Op>)
    requires Enabled(s, op)
    ensures CanRun(s, [op] + ops) <==> CanRun(Apply(s, op), ops)
    ensures CanRun(Apply(s, op), ops) ==> Run(s, [op] + ops) == Run(Apply(s, op), ops)
  {
    hide Enabled, Apply;
    assert ([op] + ops)[1..] == ops;
  }

  /** A close between a buffer's removal and its write: neither file nor encoder gets it. */
  lemma LostUnwritten(b: Buffer)
    requires b.data != []
    ensures var s := Apply(Apply(OPENED, EmptyBuffer(b)), Pick);
            CanRun(Apply(s, Close), [Write, GiveBack]) &&
            var t := Run(Apply(s, Close), [Write, GiveBack]);
            t.lost == [b] && t.returned == [] && t.file == []
  {
    var s := Apply(Apply(OPENED, EmptyBuffer(b)), Pick);
    var c := Apply(s, Close);
    RunOne(Apply(c, Write), GiveBack, []);
    RunOne(c, Write, [GiveBack]);
    assert [Write] + [GiveBack] == [Write, GiveBack] && [GiveBack] + [] == [GiveBack];
  }

  /** A close between its write and its return: the file has it, the encoder does not. */
  lemma LostWritten(b: Buffer)
    requires b.data != []
    ensures var s := Apply(Apply(Apply(OPENED, EmptyBuffer(b)), Pick), Write);
            CanRun(Apply(s, Close), [GiveBack]) &&
            var t := Run(Apply(s, Close), [GiveBack]);
            t.lost == [b] && t.returned == [] && t.file == b.data
  {
    var s := Apply(Apply(Apply(OPENED, EmptyBuffer(b)), Pick), Write);
    RunOne(Apply(s, Close), GiveBack, []);
    assert [GiveBack] + [] == [GiveBack];
  }

  // ---- while open --------------------------------------------------------

  /** The writer's own steps from here until it waits: the buffer in work, then the
      pending ones one by one. */
  function WriterSteps(s: Sink): seq<Op>
    decreases |s.pending|, if s.work.Some? then 1 else 0
  {
    if s.work.Some? then
      (if s.work.value.written then [] else [Write]) + ([GiveBack] + WriterSteps(s.(work := None)))
    else if s.pending == [] then []
    else [Pick, Write, GiveBack] + WriterSteps(s.(pending := s.pending[1..]))
  }

  /** While open the writer is never stuck: its own steps can all be taken, and then
      everything accepted is returned and in the file, in order. */
  lemma {:induction false} WriterFinishes(s: Sink)
    requires Inv(s) && s.isOpen
    ensures CanRun(s, WriterSteps(s))
    ensures var t := Run(s, WriterSteps(s));
            t.accepted == s.accepted == t.returned && t.file == Payload(s.accepted)
    decreases |s.pending|, if s.work.Some? then 1 else 0
  {
    hide Inv, Payload;
    if s.work.Some? {
      hide CanRun, Run;
      var w := if s.work.value.written then s else Apply(s, Write);
      if !s.work.value.written { ApplyInv(s, Write); }
      ApplyInv(w, GiveBack);
      var r := Apply(w, GiveBack);
      StepsAgree(r, s.(work := None));
      WriterFinishes(r);
      RunOne(w, GiveBack, WriterSteps(r));
      if !s.work.value.written { RunOne(s, Write, [GiveBack] + WriterSteps(r)); }
      assert [] + ([GiveBack] + WriterSteps(r)) == [GiveBack] + WriterSteps(r);
    } else if s.pending == [] {
      AllReturned(s);
    } else {
      hide Apply, Turn, CanRun, Run;
      var r := Turn(s);
      TurnInv(s);
      StepsAgree(r, s.(pending := s.pending[1..]));
      WriterFinishes(r);
      TurnIsRun(s, WriterSteps(r));
    }
  }

  /** One round of the writer's loop. */
  function Turn(s: Sink): Sink
    requires s.isOpen && s.work.None? && s.pending != []
  {
    Apply(Apply(Apply(s, Pick), Write), GiveBack)
  }

  lemma TurnIsRun(s: Sink, ops: seq<Op>)
    requires s.isOpen && s.work.None? && s.pending != [] && CanRun(Turn(s), ops)
    ensures CanRun(s, [Pick, Write, GiveBack] + ops)
    ensures Run(s, [Pick, Write, GiveBack] + ops) == Run(Turn(s), ops)
  {
    var p := Apply(s, Pick);
    var w := Apply(p, Write);
    RunOne(w, GiveBack, ops);
    RunOne(p, Write, [GiveBack] + ops);
    RunOne(s, Pick, [Write] + ([GiveBack] + ops));
    assert [Pick, Write, GiveBack] + ops == [Pick] + ([Write] + ([GiveBack] + ops));
  }

  lemma TurnInv(s: Sink)
    requires Inv(s) && s.isOpen && s.work.None? && s.pending != []
    ensures Inv(Turn(s)) && Turn(s).isOpen && Turn(s).accepted == s.accepted
    ensures Turn(s).pending == s.pending[1..] && Turn(s).work.None?
  {
    ApplyInv(s, Pick);
    ApplyInv(Apply(s, Pick), Write);
    ApplyInv(Apply(Apply(s, Pick), Write), GiveBack);
  }

  lemma AllReturned(s: Sink)
    requires Inv(s) && s.isOpen && s.work.None? && s.pending == []
    ensures s.returned == s.accepted && s.file == Payload(s.accepted)
  {
    assert s.accepted[..|s.returned|] == s.accepted;
  }

  /** The steps depend on the queue and the work only. */
  lemma {:induction false} StepsAgree(s: Sink, t: Sink)
    requires s.pending == t.pending && s.work == t.work
    ensures WriterSteps(s) == WriterSteps(t)
    decreases |s.pending|, if s.work.Some? then 1 else 0
  {
    if s.work.Some? {
      StepsAgree(s.(work := None), t.(work := None));
    } else if s.pending != [] {
      StepsAgree(s.(pending := s.pending[1..]), t.(pending := t.pending[1..]));
    }
  }

  // ---- the object --------------------------------------------------------

  class OmxFileSink {
    var isOpen: bool
    var pending: seq<Buffer>
    var work: Option<InWork>
    var file: seq<int>
    ghost var accepted: seq<Buffer>
    var returned: seq<Buffer>
    ghost var lost: seq<Buffer>

    ghost function State(): Sink
      reads this
    {
      Sink(isOpen, pending, work, file, accepted, returned, lost)
    }

    constructor ()
      ensures State() == OPENED
    {
      isOpen, pending, work, file := true, [], None, [];
      accepted, returned, lost := [], [], [];
    }

    /** emptyBuffer: an empty buffer is returned at once. */
    method Accept(b: Buffer) returns (bounced: bool)
      modifies this
      ensures bounced == (b.data == [])
      ensures State() == if bounced then old(State()) else Apply(old(State()), EmptyBuffer(b))
      ensures Inv(old(State())) ==> Inv(State())
    {
      bounced := |b.data| == 0;
      if !bounced {
        pending := pending + [b];
        accepted := accepted + [b];
        if Inv(old(State())) { AcceptInv(old(State()), b); }
      }
    }

    /** doWrite left to itself: everything pending is written and returned. */
    method DrainPending()
      requires Inv(State()) && isOpen && work.None?
      modifies this
      ensures Inv(State()) && isOpen && work.None? && pending == []
      ensures accepted == old(accepted) && returned == accepted
      ensures file == Payload(accepted)
    {
      hide Inv;
      while pending != []
        invariant Inv(State()) && isOpen && work.None? && accepted == old(accepted)
        decreases |pending|
      {
        ghost var s0 := State();
        var b := pending[0];
        pending := pending[1..];
        work := Some(InWork(b, false));
        PickInv(s0);
        ghost var s1 := State();
        assert s1 == Apply(s0, Pick);
        file := file + b.data;
        work := Some(InWork(b, true));
        WriteInv(s1);
        ghost var s2 := State();
        assert s2 == Apply(s1, Write);
        returned := returned + [b];
        work := None;
        assert State() == Apply(s2, GiveBack);
        GiveBackInv(s2);
      }
      AllReturned(State());
    }
  }
}
