// RtpComponent of src/omx/preview_component.cpp: a queue of encoder buffers that
// is drained either as a byte stream (getData) or one NAL unit at a time
// (getOneNalUnit).  A call that would wait for data is not made.
module RtpComponent {
  import opened Common
  import opened NalScan

  /** OMX_BUFFERHEADERTYPE.  While the component holds it, nOffset and nFilledLen
      are the begin and end of what is left to read. */
  class OmxBuffer {
    var pBuffer: seq<byte>
    var nOffset: nat
    var nFilledLen: nat

    constructor (bytes: seq<byte>, offset: nat, filled: nat)
      ensures pBuffer == bytes && nOffset == offset && nFilledLen == filled
    {
      pBuffer, nOffset, nFilledLen := bytes, offset, filled;
    }

    predicate HoldsData()
      reads this
    {
      nOffset < nFilledLen <= |pBuffer|
    }

    function Left(): seq<byte>
      requires HoldsData()
      reads this
    {
      pBuffer[nOffset..nFilledLen]
    }
  }

  // ---- copyOneNAL --------------------------------------------------------

  /** What the target holds when the unit has been copied up to `from`: all of it
      while it fits; otherwise all but the last three bytes are certain. */
  ghost predicate Copied(t: seq<byte>, to_size: nat, f: seq<byte>, start: nat, from: nat)
    requires to_size <= |t| && start <= from <= |f|
  {
    var n := from - start;
    if n <= to_size then t[..n] == f[start..from]
    else to_size >= 3 ==> t[..to_size - 3] == f[start..start + to_size - 3]
  }

  /** append_4: all four bytes, or, when fewer fit, as many arbitrary bytes as do:
      the source shifts by 32 bits and more there. */
  method Append4(to: array<byte>, to_size: nat, f: seq<byte>, start: nat, from: nat)
    requires to_size <= to.Length && start <= from && from + 4 <= |f|
    requires Copied(to[..], to_size, f, start, from)
    modifies to
    ensures Copied(to[..], to_size, f, start, from + 4)
    ensures to[to_size..] == old(to[to_size..])
  {
    var w := Min(from - start, to_size);
    if w + 4 <= to_size {
      ghost var was := to[..];
      to[w], to[w + 1], to[w + 2], to[w + 3] := f[from], f[from + 1], f[from + 2], f[from + 3];
      FourMore(was, to[..], w, f, start, from);
    } else {
      ghost var sure := to[..w];
      var k := w;
      while k < to_size
        invariant w <= k <= to_size
        invariant to[..w] == sure && to[to_size..] == old(to[to_size..])
      {
        var garbage: byte := *;
        to[k] := garbage;
        k := k + 1;
      }
      if to_size >= 3 { CutUnit(to[..], sure, to_size, f, start, from); }
    }
  }

  lemma FourMore(was: seq<byte>, now: seq<byte>, w: nat, f: seq<byte>, start: nat, from: nat)
    requires start <= from && from + 4 <= |f| && w == from - start && w + 4 <= |was| == |now|
    requires was[..w] == f[start..from]
    requires now == was[w := f[from]][w + 1 := f[from + 1]][w + 2 := f[from + 2]][w + 3 := f[from + 3]]
    ensures now[..w + 4] == f[start..from + 4] && now[w + 4..] == was[w + 4..]
  {
    assert forall k :: 0 <= k < w ==> now[k] == was[..w][k];
  }

  lemma OneMore(was: seq<byte>, now: seq<byte>, w: nat, f: seq<byte>, start: nat, from: nat)
    requires start <= from < |f| && w == from - start < |was|
    requires was[..w] == f[start..from] && now == was[w := f[from]]
    ensures now[..w + 1] == f[start..from + 1] && now[w + 1..] == was[w + 1..]
  {
    assert forall k :: 0 <= k < w ==> now[k] == was[..w][k];
  }

  lemma CutUnit(t: seq<byte>, sure: seq<byte>, to_size: nat, f: seq<byte>, start: nat, from: nat)
    requires 3 <= to_size <= |t| && start <= from && from + 4 <= |f|
    requires |sure| == Min(from - start, to_size) <= |t| && |sure| + 4 > to_size && t[..|sure|] == sure
    requires if from - start <= to_size then sure == f[start..from]
             else sure[..to_size - 3] == f[start..start + to_size - 3]
    ensures t[..to_size - 3] == f[start..start + to_size - 3]
  {
    assert t[..to_size - 3] == sure[..to_size - 3];
  }

  method Append1(to: array<byte>, to_size: nat, f: seq<byte>, start: nat, from: nat)
    requires to_size <= to.Length && start <= from < |f|
    requires Copied(to[..], to_size, f, start, from)
    modifies to
    ensures Copied(to[..], to_size, f, start, from + 1)
    ensures to[to_size..] == old(to[to_size..])
  {
    var w := from - start;
    if w < to_size {
      ghost var was := to[..];
      to[w] := f[from];
      OneMore(was, to[..], w, f, start, from);
    } else if w == to_size && to_size >= 3 {
      assert to[..to_size - 3] == to[..w][..to_size - 3];
    }
  }

  /** The copying loop of copyOneNAL from the first byte behind the start code. */
  method CopyUnit(to: array<byte>, to_size: nat, f: seq<byte>, start: nat) returns (end: nat)
    requires to_size <= to.Length && start <= |f|
    modifies to
    ensures end == JumpScan(f, start) && Copied(to[..], to_size, f, start, end)
    ensures to[to_size..] == old(to[to_size..])
  {
    hide Copied;
    end := start;
    assert Copied(to[..], to_size, f, start, start) by { NothingCopied(to[..], to_size, f, start); }
    while end < |f|
      invariant start <= end <= |f|
      invariant JumpScan(f, end) == JumpScan(f, start)
      invariant Copied(to[..], to_size, f, start, end)
      invariant to[to_size..] == old(to[to_size..])
      decreases |f| - end
    {
      if end + 4 <= |f| {
        PrefixIsCode(f, end);
        if PrefixSize(Word(f, end)) != 0 { break; }
        if f[end + 3] != 0 {
          Append4(to, to_size, f, start, end);
          end := end + 4;
        } else {
          Append1(to, to_size, f, start, end);
          end := end + 1;
        }
      } else {
        Append1(to, to_size, f, start, end);
        end := end + 1;
      }
    }
  }

  /** memcpy to the target's front. */
  method CopyOut(to: array<byte>, bytes: seq<byte>)
    requires |bytes| <= to.Length
    modifies to
    ensures to[..|bytes|] == bytes && to[|bytes|..] == old(to[|bytes|..])
  {
    forall k | 0 <= k < |bytes| { to[k] := bytes[k]; }
  }

  lemma NothingCopied(t: seq<byte>, to_size: nat, f: seq<byte>, start: nat)
    requires to_size <= |t| && start <= |f|
    ensures Copied(t, to_size, f, start, start)
  {
  }

  /** The first unit of the bytes `f` without its start code. */
  function UnitOf(f: seq<byte>): seq<byte>
  {
    f[OneNal(f).begin..OneNal(f).end]
  }

  /** What taking it uses up: bytes before the start code, the code, the unit. */
  function Scanned(f: seq<byte>): (n: nat)
    ensures n <= |f| && (f != [] ==> n > 0)
  {
    OneNal(f).scanned
  }

  /** What the target then holds: the unit, or all but three of the bytes that fit. */
  lemma CopiedUnit(t: seq<byte>, to_size: nat, f: seq<byte>)
    requires to_size <= |t| && Copied(t, to_size, f, OneNal(f).begin, OneNal(f).end)
    ensures var unit := UnitOf(f);
            if |unit| <= to_size then t[..|unit|] == unit
            else to_size >= 3 ==> t[..to_size - 3] == unit[..to_size - 3]
  {
    hide OneNal;
  }

  /** copyOneNAL on the bytes `f`: how far it scanned and the unit's full size. */
  method CopyOneNal(to: array<byte>, to_size: nat, f: seq<byte>) returns (scanned: nat, frame_size: nat)
    requires to_size <= to.Length
    modifies to
    ensures var u := OneNal(f);
            && scanned == u.scanned && frame_size == u.end - u.begin
            && Copied(to[..], to_size, f, u.begin, u.end)
    ensures to[to_size..] == old(to[to_size..])
  {
    var q := 0;
    while q + 4 <= |f| && PrefixSize(Word(f, q)) == 0
      invariant 0 <= q <= |f| && SkipToCode(f, q) == SkipToCode(f, 0)
      invariant to[..] == old(to[..])
    {
      PrefixIsCode(f, q);
      q := q + 1;
    }
    if q + 4 > |f| { return |f|, 0; }
    PrefixIsCode(f, q);
    var start := q + PrefixSize(Word(f, q));
    scanned := CopyUnit(to, to_size, f, start);
    frame_size := scanned - start;
  }

  // ---- the queue ---------------------------------------------------------

  /** A queue's bytes, front first. */
  function Flat(views: seq<seq<byte>>): seq<byte>
  {
    if views == [] then [] else views[0] + Flat(views[1..])
  }

  lemma {:induction false} FlatAppend(views: seq<seq<byte>>, v: seq<byte>)
    ensures Flat(views + [v]) == Flat(views) + v
  {
    if views == [] {
      assert views + [v] == [v];
      assert Flat([v]) == v + Flat([v][1..]);
    } else {
      assert (views + [v])[1..] == views[1..] + [v];
      FlatAppend(views[1..], v);
    }
  }

  lemma FlatFirst(first: seq<byte>, rest: seq<seq<byte>>)
    ensures Flat([first] + rest) == first + Flat(rest)
  {
    assert ([first] + rest)[1..] == rest;
  }

  /** The buffers are distinct, and `views` is what is left in each of them. */
  ghost predicate Holds(bufs: seq<OmxBuffer>, views: seq<seq<byte>>)
    reads bufs
  {
    && |views| == |bufs|
    && (bufs != [] ==>
          && bufs[0] !in bufs[1..] && bufs[0].HoldsData() && bufs[0].Left() == views[0]
          && Holds(bufs[1..], views[1..]))
  }

  lemma {:induction false} HoldsAppend(bufs: seq<OmxBuffer>, views: seq<seq<byte>>, b: OmxBuffer)
    requires Holds(bufs, views) && b !in bufs && b.HoldsData()
    ensures Holds(bufs + [b], views + [b.Left()])
  {
    if bufs != [] {
      HoldsAppend(bufs[1..], views[1..], b);
      assert (bufs + [b])[1..] == bufs[1..] + [b];
      assert (views + [b.Left()])[1..] == views[1..] + [b.Left()];
    }
  }

  lemma HoldsFirst(bufs: seq<OmxBuffer>, views: seq<seq<byte>>)
    requires Holds(bufs, views) && bufs != []
    ensures |views| == |bufs| && bufs[0] !in bufs[1..] && Holds(bufs[1..], views[1..])
    ensures bufs[0].HoldsData() && bufs[0].Left() == views[0]
  {
  }

  lemma HoldsCons(b: OmxBuffer, bufs: seq<OmxBuffer>, views: seq<seq<byte>>)
    requires Holds(bufs, views) && b !in bufs && b.HoldsData()
    ensures Holds([b] + bufs, [b.Left()] + views)
  {
    assert ([b] + bufs)[1..] == bufs && ([b.Left()] + views)[1..] == views;
  }

  lemma Requeue(returned: seq<OmxBuffer>, held: seq<OmxBuffer>, b: OmxBuffer,
                consumed: seq<byte>, left: seq<byte>, data: seq<byte>)
    ensures returned + held + [b] == returned + (held + [b])
    ensures consumed + left + data == consumed + (left + data)
  {
  }

  lemma HandOver(returned: seq<OmxBuffer>, b: OmxBuffer, tail: seq<OmxBuffer>)
    ensures returned + ([b] + tail) == (returned + [b]) + tail
  {
  }

  lemma Resplit(consumed: seq<byte>, first: seq<byte>, n: nat, rest: seq<byte>)
    requires n <= |first|
    ensures consumed + (first + rest) == (consumed + first[..n]) + (first[n..] + rest)
    ensures n == |first| ==> consumed + (first + rest) == (consumed + first) + rest
  {
    assert first == first[..n] + first[n..];
  }

  class RtpComponent {
    var buffer_in_use: OmxBuffer?
    var pending: seq<OmxBuffer>
    var pending_data_size: nat
    var returned: seq<OmxBuffer>        // OMX_FillThisBuffer on queued buffers, in order
    ghost var held: seq<OmxBuffer>      // the buffer in use, then the pending ones
    ghost var views: seq<seq<byte>>     // what is left in each of them
    ghost var accepted: seq<OmxBuffer>  // buffers taken in with data, in order
    ghost var arrived: seq<byte>        // all bytes taken in
    ghost var consumed: seq<byte>       // all bytes read or scanned over

    /** Each held buffer is in one place and has data left, the size is the sum of
        what is left, buffers go back in the order they came, and no byte is lost. */
    ghost predicate Valid()
      reads this, held
    {
      && held == (if buffer_in_use == null then pending else [buffer_in_use] + pending)
      && Holds(held, views)
      && pending_data_size == |Flat(views)|
      && accepted == returned + held
      && arrived == consumed + Flat(views)
    }

    constructor ()
      ensures Valid() && held == [] && returned == [] && accepted == [] && arrived == [] && consumed == []
    {
      buffer_in_use, pending, pending_data_size, returned := null, [], 0, [];
      held, views, accepted, arrived, consumed := [], [], [], [], [];
    }

    /** isReadable. */
    predicate IsReadable()
      reads this
    {
      0 < pending_data_size
    }

    /** It holds exactly when a read would not wait. */
    lemma ReadableIffNoWait()
      requires Valid()
      ensures IsReadable() <==> buffer_in_use != null || pending != []
    {
      if held != [] { assert held[0].Left() == views[0]; }
    }

    /** emptyBuffer: a buffer with data is queued; an empty one goes straight back. */
    method EmptyBuffer(buf: OmxBuffer) returns (bounced: bool)
      requires Valid() && buf !in held
      requires buf.nOffset + buf.nFilledLen <= |buf.pBuffer|
      modifies this, buf
      ensures Valid() && bounced == (old(buf.nFilledLen) == 0)
      ensures returned == old(returned) && consumed == old(consumed)
      ensures bounced ==> held == old(held) && arrived == old(arrived) && unchanged(buf)
      ensures !bounced ==> held == old(held) + [buf]
      ensures !bounced ==>
                arrived == old(arrived) + old(buf.pBuffer[buf.nOffset..buf.nOffset + buf.nFilledLen])
    {
      hide Flat, Holds;
      bounced := buf.nFilledLen == 0;
      if !bounced {
        ghost var data := buf.pBuffer[buf.nOffset..buf.nOffset + buf.nFilledLen];
        pending := pending + [buf];
        pending_data_size := pending_data_size + buf.nFilledLen;
        buf.nFilledLen := buf.nFilledLen + buf.nOffset;
        assert buf.Left() == data;
        FlatAppend(views, data);
        HoldsAppend(held, views, buf);
        Requeue(returned, held, buf, consumed, Flat(views), data);
        held, accepted := held + [buf], accepted + [buf];
        views, arrived := views + [data], arrived + data;
      }
    }

    /** Both reads begin by taking the next buffer into use. */
    method TakeNext()
      requires Valid() && held != []
      modifies this`buffer_in_use, this`pending
      ensures Valid() && buffer_in_use == held[0]
    {
      hide Flat;
      if buffer_in_use == null {
        buffer_in_use := pending[0];
        pending := pending[1..];
        assert [buffer_in_use] + pending == old(pending);
      }
    }

    /** ... and end by moving its begin offset `n` bytes on and handing the buffer
        back when nothing is left in it. */
    method Advance(n: nat)
      requires Valid() && buffer_in_use != null && n <= |views[0]|
      modifies this, buffer_in_use`nOffset
      ensures Valid()
      ensures arrived == old(arrived) && accepted == old(accepted)
      ensures consumed == old(consumed) + old(views[0])[..n]
      ensures if n == |old(views[0])|
              then held == old(held)[1..] && views == old(views)[1..]
                   && returned == old(returned) + [old(held[0])]
              else held == old(held) && returned == old(returned)
                   && views == [old(views[0])[n..]] + old(views)[1..]
    {
      assert buffer_in_use.Left() == views[0];
      if buffer_in_use.nOffset + n == buffer_in_use.nFilledLen { HandBack(); } else { MoveOn(n); }
    }

    method MoveOn(n: nat)
      requires Valid() && buffer_in_use != null && n < |views[0]|
      modifies this`pending_data_size, this`views, this`consumed, buffer_in_use`nOffset
      ensures Valid()
      ensures consumed == old(consumed) + old(views[0])[..n]
      ensures views == [old(views[0])[n..]] + old(views)[1..]
    {
      hide Flat, Holds;
      var b := buffer_in_use;
      HoldsFirst(held, views);
      ghost var first, rest := views[0], views[1..];
      FlatFirst(first, rest);
      assert views == [first] + rest && held == [b] + held[1..];
      pending_data_size := pending_data_size - n;
      buffer_in_use.nOffset := buffer_in_use.nOffset + n;
      assert b.Left() == first[n..];
      HoldsCons(b, held[1..], rest);
      Resplit(consumed, first, n, Flat(rest));
      consumed := consumed + first[..n];
      views := [first[n..]] + rest;
      FlatFirst(first[n..], rest);
    }

    method HandBack()
      requires Valid() && buffer_in_use != null
      modifies this, buffer_in_use`nOffset
      ensures Valid()
      ensures arrived == old(arrived) && accepted == old(accepted)
      ensures consumed == old(consumed) + old(views[0])
      ensures held == old(held)[1..] && views == old(views)[1..]
      ensures returned == old(returned) + [old(held[0])]
    {
      hide Flat, Holds;
      var b := buffer_in_use;
      HoldsFirst(held, views);
      ghost var first, rest, tail := views[0], views[1..], held[1..];
      FlatFirst(first, rest);
      assert views == [first] + rest && tail == pending;
      Resplit(consumed, first, |first|, Flat(rest));
      HandOver(returned, b, tail);
      pending_data_size := pending_data_size - (b.nFilledLen - b.nOffset);
      buffer_in_use.nOffset := buffer_in_use.nFilledLen;
      consumed := consumed + first;
      returned := returned + [b];
      buffer_in_use := null;
      held, views := tail, rest;
    }

    /** getData: the next bytes of the stream, up to the end of one buffer. */
    method GetData(to: array<byte>, to_size: nat) returns (copied: nat, truncated: nat)
      requires Valid() && held != [] && to_size <= to.Length
      modifies this, held[0], to
      ensures Valid() && truncated == 0
      ensures copied == Min(to_size, |old(views[0])|)
      ensures to[..copied] == old(views[0])[..copied] && to[copied..] == old(to[copied..])
      ensures consumed == old(consumed) + to[..copied]
      ensures arrived == old(arrived) && accepted == old(accepted)
      ensures returned == if copied == |old(views[0])| then old(returned) + [old(held[0])] else old(returned)
    {
      TakeNext();
      var b := buffer_in_use;
      assert b.Left() == views[0];
      copied := Min(to_size, b.nFilledLen - b.nOffset);
      truncated := 0;
      CopyOut(to, b.Left()[..copied]);
      Advance(copied);
    }

    /** getOneNalUnit: the next unit of the buffer in use, without its start code. */
    method GetOneNalUnit(to: array<byte>, to_size: nat) returns (copied: nat, truncated: nat)
      requires Valid() && held != [] && to_size <= to.Length
      modifies this, held[0], to
      ensures Valid()
      ensures copied + truncated == |UnitOf(old(views[0]))| && copied <= to_size
      ensures truncated > 0 ==> copied == to_size
      ensures truncated == 0 ==> to[..copied] == UnitOf(old(views[0]))
      ensures truncated > 0 && to_size >= 3 ==>
                to[..to_size - 3] == UnitOf(old(views[0]))[..to_size - 3]
      ensures var f := old(views[0]); var n := Scanned(f);
              && 0 < n && consumed == old(consumed) + f[..n]
              && (if n == |f|
                  then views == old(views)[1..] && held == old(held)[1..]
                       && returned == old(returned) + [old(held[0])]
                  else views == [f[n..]] + old(views)[1..] && held == old(held)
                       && returned == old(returned))
      ensures to[to_size..] == old(to[to_size..])
      ensures arrived == old(arrived) && accepted == old(accepted)
    {
      TakeNext();
      var b := buffer_in_use;
      var f := b.pBuffer[b.nOffset..b.nFilledLen];
      assert b.Left() == views[0] == f;
      var scanned;
      scanned, copied := CopyOneNal(to, to_size, f);
      CopiedUnit(to[..], to_size, f);
      assert scanned == Scanned(f) && copied == |UnitOf(f)|;
      hide UnitOf, Scanned, Copied, Holds, Flat;
      if to_size < copied {
        truncated := copied - to_size;
        copied := to_size;
      } else {
        truncated := 0;
      }
      Advance(scanned);
    }
  }

  /** Units that a byte stream may hold and that a target of `n` bytes takes whole. */
  ghost predicate UnitsFit(nals: seq<seq<byte>>, n: nat)
  {
    nals != [] ==> NalOk(nals[0]) && |nals[0]| <= n && UnitsFit(nals[1..], n)
  }

  lemma {:induction false} AllOk(nals: seq<seq<byte>>, n: nat)
    requires UnitsFit(nals, n)
    ensures forall k :: 0 <= k < |nals| ==> NalOk(nals[k])
  {
    if nals != [] {
      AllOk(nals[1..], n);
      assert forall k :: 0 < k < |nals| ==> nals[k] == nals[1..][k - 1];
    }
  }

  /** One read of a buffer that still holds the units `left`. */
  lemma ReadsFirst(left: seq<seq<byte>>, n: nat)
    requires left != [] && UnitsFit(left, n)
    ensures Join(left) != [] && UnitOf(Join(left)) == left[0] && |left[0]| <= n
    ensures Scanned(Join(left)) == |Join(left)| <==> left[1..] == []
    ensures Join(left)[Scanned(Join(left))..] == Join(left[1..])
    ensures UnitsFit(left[1..], n)
  {
    hide NalOk;
    AllOk(left, n);
    FirstUnit(left);
    assert left[1..] == [] <==> Join(left[1..]) == [];
  }

  method ReadUnit(c: RtpComponent, to: array<byte>, ghost left: seq<seq<byte>>)
      returns (unit: seq<byte>, done: bool)
    requires c.Valid() && c.held != [] && left != []
    requires c.views[0] == Join(left) && UnitsFit(left, to.Length)
    modifies c, c.held[0], to
    ensures c.Valid() && unit == left[0] && done == (left[1..] == [])
    ensures UnitsFit(left[1..], to.Length)
    ensures if done
            then c.held == old(c.held)[1..] && c.views == old(c.views)[1..]
                 && c.returned == old(c.returned) + [old(c.held[0])]
            else c.held == old(c.held) && c.views == [Join(left[1..])] + old(c.views)[1..]
                 && c.returned == old(c.returned)
  {
    hide UnitsFit, Join, UnitOf, Scanned, Holds;
    ReadsFirst(left, to.Length);
    var before := |c.returned|;
    var copied, truncated := c.GetOneNalUnit(to, to.Length);
    unit := to[..copied];
    done := |c.returned| > before;
  }

  /** Splitting undoes joining on the component itself: a buffer that holds units
      joined with start codes gives back exactly those units, one a call, and is
      then returned to the encoder; the buffers behind it are not touched. */
  method ReadUnits(c: RtpComponent, to: array<byte>, ghost nals: seq<seq<byte>>)
      returns (units: seq<seq<byte>>)
    requires c.Valid() && c.held != [] && c.views[0] == Join(nals) && UnitsFit(nals, to.Length)
    modifies c, c.held[0], to
    ensures c.Valid() && units == nals
    ensures c.returned == old(c.returned) + [old(c.held[0])]
    ensures c.held == old(c.held)[1..] && c.views == old(c.views)[1..]
  {
    assert c.held[0].Left() == c.views[0];
    assert nals != [];
    hide UnitsFit, Join, Holds;
    var unit, done := ReadUnit(c, to, nals);
    ghost var left := nals[1..];
    units := [unit];
    while !done
      invariant c.Valid() && units + left == nals && done == (left == [])
      invariant UnitsFit(left, to.Length)
      invariant if done
                then c.held == old(c.held)[1..] && c.views == old(c.views)[1..]
                     && c.returned == old(c.returned) + [old(c.held[0])]
                else c.held == old(c.held) && c.views == [Join(left)] + old(c.views)[1..]
                     && c.returned == old(c.returned)
      decreases |left|
    {
      unit, done := ReadUnit(c, to, left);
      units := units + [unit];
      left := left[1..];
    }
  }
}
