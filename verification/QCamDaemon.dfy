// Message framing in src/qcamdaemon.cpp: bytes from a socket are gathered in a
// fixed buffer, what Skip takes for values is handed on from its front, and the
// tail is kept.  An unclosed array or object counts as a value, and a pass ends at
// the first space behind one.
module QCamDaemon {
  import opened Common
  import opened JsonChars
  import opened JsonScan
  import opened JsonValue
  import R = JsonRead
  import Parser = JsonParser
  import E = JsonExtend

  const CMD_SIZE: nat := 512

  function Concat(pieces: seq<string>): string
  {
    if pieces == [] then "" else Concat(pieces[..|pieces| - 1]) + pieces[|pieces| - 1]
  }

  // ---- one framing pass --------------------------------------------------

  /** A value found at `id` is never empty, so each framing iteration consumes. */
  lemma MessageNotEmpty(s: Text, id: nat)
    requires id < |s| && R.GetJSON(s, id).Some?
    ensures |R.GetJSON(s, id).value| > 0
    ensures id + |R.GetJSON(s, id).value| <= |s|
    ensures s[id..id + |R.GetJSON(s, id).value|] == R.GetJSON(s, id).value
  {
    TrimKeepsFirst(s, id, Skip(s, id));
  }

  lemma {:induction false} TrimKeepsFirst(s: Text, lo: nat, hi: nat)
    requires lo < hi <= |s| && !IsSpace(s[lo])
    ensures R.TrimEnd(s, lo, hi) > lo
    decreases hi
  {
    if IsSpace(s[hi - 1]) { TrimKeepsFirst(s, lo, hi - 1); }
  }

  /** handleMessage: the values read one behind the other from `from` on. */
  function Messages(s: Text, from: nat): (r: (seq<string>, nat))
    requires from <= |s|
    ensures from <= r.1 <= |s|
    decreases |s| - from
  {
    if from >= |s| then ([], from)
    else
      match R.GetJSON(s, from)
      case None => ([], from)
      case Some(m) =>
        MessageNotEmpty(s, from);
        var (rest, end) := Messages(s, from + |m|);
        ([m] + rest, end)
  }

  lemma MessagesStep(s: Text, from: nat)
    requires from <= |s|
    ensures from < |s| && R.GetJSON(s, from).Some? ==>
              var m := R.GetJSON(s, from).value;
              && |m| > 0 && from + |m| <= |s|
              && Messages(s, from)
                   == ([m] + Messages(s, from + |m|).0, Messages(s, from + |m|).1)
    ensures from >= |s| || R.GetJSON(s, from).None? ==> Messages(s, from) == ([], from)
  {
    hide Skip, R.GetJSON;
    if from < |s| && R.GetJSON(s, from).Some? { MessageNotEmpty(s, from); }
  }

  lemma MoveOver(got: seq<string>, m: string, rest: seq<string>)
    ensures got + ([m] + rest) == got + [m] + rest
  {
  }

  /** handleMessage on the bytes in the buffer: what is handed to the request
      handlers, in order, and how many bytes were processed. */
  method HandleMessage(s: Text) returns (ms: seq<string>, processed: nat)
    ensures (ms, processed) == Messages(s, 0)
  {
    hide *;
    ms, processed := [], 0;
    assert [] + Messages(s, 0).0 == Messages(s, 0).0;
    while processed < |s|
      invariant processed <= |s|
      invariant ms + Messages(s, processed).0 == Messages(s, 0).0
      invariant Messages(s, processed).1 == Messages(s, 0).1
      decreases |s| - processed
    {
      var p := Parser.GetJSON(s, processed);
      MessagesStep(s, processed);
      if p.None? { break; }
      MoveOver(ms, p.value, Messages(s, processed + |p.value|).0);
      ms := ms + [p.value];
      processed := processed + |p.value|;
    }
    MessagesStep(s, processed);
    assert ms + [] == ms;
  }

  lemma ConcatNone()
    ensures Concat([]) == ""
  {
  }

  lemma ConcatCons(m: string, rest: seq<string>)
    ensures Concat([m] + rest) == m + Concat(rest)
    decreases |rest|
  {
    if rest == [] {
      assert [m] + rest == [m];
      assert Concat([m]) == Concat([m][..0]) + m;
    } else {
      var n := |rest| - 1;
      assert ([m] + rest)[..n + 1] == [m] + rest[..n];
      ConcatCons(m, rest[..n]);
    }
  }

  /** The messages of a pass are the bytes it processed, and none is empty. */
  lemma {:induction false} MessagesAreBytes(s: Text, from: nat)
    requires from <= |s|
    ensures var (ms, end) := Messages(s, from);
            && from <= end <= |s| && Concat(ms) == s[from..end]
            && (forall m <- ms :: m != "")
            && (end < |s| ==> R.GetJSON(s, end).None?)
    decreases |s| - from
  {
    hide Skip, R.GetJSON;
    if from < |s| && R.GetJSON(s, from).Some? {
      var m := R.GetJSON(s, from).value;
      MessageNotEmpty(s, from);
      MessagesAreBytes(s, from + |m|);
      var (rest, end) := Messages(s, from + |m|);
      ConcatCons(m, rest);
      assert s[from..end] == s[from..from + |m|] + s[from + |m|..end];
    }
  }

  lemma {:induction false} ConcatSum(a: seq<string>, b: seq<string>)
    ensures Concat(a + b) == Concat(a) + Concat(b)
    decreases |b|
  {
    if b == [] {
      assert a + b == a;
    } else {
      var n := |b| - 1;
      assert (a + b)[..|a + b| - 1] == a + b[..n];
      ConcatSum(a, b[..n]);
    }
  }

  /** What one read does: `kept` is the tail of the last pass. */
  datatype Pass = Pass(messages: seq<string>, spaces: string, kept: string)

  function PassOver(s: Text): (p: Pass)
    ensures |p.kept| <= |s|
  {
    var (ms, end) := Messages(s, 0);
    Pass(ms, s[end..SpaceEnd(s, end)], s[SpaceEnd(s, end)..])
  }

  /** The reads of one connection: none is empty, as that is a disconnect, and each
      fits the buffer behind the tail kept so far. */
  predicate Fits(kept: string, arrivals: seq<string>)
    requires |kept| <= CMD_SIZE
    decreases |arrivals|
  {
    arrivals == [] ||
    (arrivals[0] != "" && |kept| + |arrivals[0]| <= CMD_SIZE && Fits(PassOver(kept + arrivals[0]).kept, arrivals[1..]))
  }

  /** Everything taken off the buffer over a connection, and the last tail. */
  function Connection(kept: string, arrivals: seq<string>): (seq<string>, string)
    requires |kept| <= CMD_SIZE && Fits(kept, arrivals)
    decreases |arrivals|
  {
    if arrivals == [] then ([], kept)
    else
      var p := PassOver(kept + arrivals[0]);
      var (pieces, last) := Connection(p.kept, arrivals[1..]);
      (p.messages + [p.spaces] + pieces, last)
  }

  lemma PassKeepsBytes(s: Text)
    ensures var p := PassOver(s); Concat(p.messages) + p.spaces + p.kept == s
  {
    hide Skip, R.GetJSON;
    MessagesAreBytes(s, 0);
  }

  lemma ConcatPass(ms: seq<string>, sp: string, more: seq<string>)
    ensures Concat(ms + [sp] + more) == Concat(ms) + sp + Concat(more)
  {
    ConcatSum(ms + [sp], more);
    assert (ms + [sp])[..|ms|] == ms;
  }

  lemma Rejoin(taken: string, kept: string, mid: string, last: string,
               old0: string, read0: string, more: string)
    requires taken + kept == old0 + read0 && mid + last == kept + more
    ensures taken + mid + last == old0 + (read0 + more)
  {
    assert taken + mid + last == taken + (mid + last) == (taken + kept) + more;
  }

  /** Over all reads up to a disconnect no byte is lost, added or reordered. */
  lemma {:induction false} ConnectionKeepsBytes(kept: string, arrivals: seq<string>)
    requires |kept| <= CMD_SIZE && Fits(kept, arrivals)
    ensures var (pieces, last) := Connection(kept, arrivals);
            Concat(pieces) + last == kept + Concat(arrivals)
    decreases |arrivals|
  {
    hide PassOver, Messages, Skip, Concat;
    if arrivals == [] {
      ConcatNone();
      assert kept + "" == kept;
    } else {
      var p := PassOver(kept + arrivals[0]);
      PassKeepsBytes(kept + arrivals[0]);
      var (pieces, last) := Connection(p.kept, arrivals[1..]);
      ConnectionKeepsBytes(p.kept, arrivals[1..]);
      ConcatPass(p.messages, p.spaces, pieces);
      ConcatCons(arrivals[0], arrivals[1..]);
      assert [arrivals[0]] + arrivals[1..] == arrivals;
      Rejoin(Concat(p.messages) + p.spaces, p.kept, Concat(pieces), last,
             kept, arrivals[0], Concat(arrivals[1..]));
    }
  }

  // ---- tails that never yield a message ----------------------------------

  /** All messages of the reads. */
  function Handled(kept: string, arrivals: seq<string>): seq<string>
    requires |kept| <= CMD_SIZE && Fits(kept, arrivals)
    decreases |arrivals|
  {
    if arrivals == [] then []
    else
      var p := PassOver(kept + arrivals[0]);
      p.messages + Handled(p.kept, arrivals[1..])
  }

  /** Whatever is read in the rest of the connection, no message is handled. */
  ghost predicate Blocked(kept: string)
    requires |kept| <= CMD_SIZE
  {
    forall arrivals {:trigger Fits(kept, arrivals)} :: Fits(kept, arrivals) ==> Handled(kept, arrivals) == []
  }

  /** Spaces behind a message are skipped, so no tail begins with one. */
  lemma TailStart(s: Text)
    ensures PassOver(s).kept != "" ==> !IsSpace(PassOver(s).kept[0])
  {
    SpaceEndStops(s, Messages(s, 0).1);
  }

  lemma {:induction false} SpaceEndStops(s: Text, j: nat)
    requires j <= |s|
    ensures SpaceEnd(s, j) < |s| ==> !IsSpace(s[SpaceEnd(s, j)])
    decreases |s| - j
  {
    if j < |s| && IsSpace(s[j]) { SpaceEndStops(s, j + 1); }
  }

  lemma NothingTaken(s: Text)
    requires s != "" && !IsSpace(s[0]) && R.GetJSON(s, 0).None?
    ensures PassOver(s) == Pass([], "", s)
  {
    hide R.GetJSON;
    MessagesStep(s, 0);
  }

  /** A tail that Skip fails on is never passed: for the rest of the connection no
      message is handled and the buffer only fills up. */
  lemma {:induction false} ErrorBlocks(kept: string, arrivals: seq<string>)
    requires 0 < |kept| <= CMD_SIZE && !IsSpace(kept[0]) && Skip(kept, 0) == ERROR && Fits(kept, arrivals)
    ensures Handled(kept, arrivals) == [] && Connection(kept, arrivals).1 == kept + Concat(arrivals)
    decreases |arrivals|
  {
    hide PassOver;
    if arrivals != [] {
      var s: Text := kept + arrivals[0];
      E.ErrorExtends(kept, s, 0, 0);
      NothingTaken(s);
      ErrorBlocks(s, arrivals[1..]);
      ConcatCons(arrivals[0], arrivals[1..]);
      assert [arrivals[0]] + arrivals[1..] == arrivals;
    }
  }

  /** How many bytes a tail needs for a message: one that lets the pass look again,
      or a quote, or two when the tail ends in a backslash. */
  function Need(kept: string): nat
    requires |kept| <= CMD_SIZE
  {
    if Skip(kept, 0) <= |kept| then 1 else Skip(kept, 0) - |kept|
  }

  function Completion(kept: string): string
    requires |kept| <= CMD_SIZE
  {
    if Skip(kept, 0) <= |kept| then " " else if Skip(kept, 0) == |kept| + 1 then "\"" else "\"\""
  }

  lemma CompletionYields(kept: string)
    requires kept != "" && |kept| <= CMD_SIZE && Skip(kept, 0) != ERROR
    ensures |Completion(kept)| == Need(kept)
    ensures R.GetJSON(kept + Completion(kept), 0).Some?
  {
    var x: Text := kept + Completion(kept);
    if Skip(kept, 0) <= |kept| {
      E.SpaceKeepsValue(kept, x, 0, 0);
    } else {
      E.OverrunIsString(kept);
      E.StrGoesOn(kept, x, 1);
      assert x[0] == '"' && x[Skip(kept, 0) - 1] == '"';
      assert StrEnd(x, 1) == |x|;
      assert StepAt(x, 0) == Advance(|x|, 0);
    }
  }

  /** A tail that ends in a backslash inside a string, with room for one byte. */
  lemma OneByteShort(kept: string, x: string)
    requires |kept| + 1 == |x| == CMD_SIZE && kept <= x && kept != ""
    requires Skip(kept, 0) == |kept| + 2
    ensures R.GetJSON(x, 0).None? && !IsSpace(x[0])
  {
    E.OverrunIsString(kept);
    E.StrGoesOn(kept, x, 1);
    assert x[0] == '"' && StrEnd(x, 1) == |x| + 1;
    assert StepAt(x, 0) == Advance(|x| + 1, 0);
  }

  lemma NoRoomBlocks(kept: string, arrivals: seq<string>)
    requires 0 < |kept| <= CMD_SIZE && Skip(kept, 0) != ERROR && |kept| + Need(kept) > CMD_SIZE
    requires Fits(kept, arrivals)
    ensures Handled(kept, arrivals) == []
  {
    if arrivals != [] {
      var x := kept + arrivals[0];
      OneByteShort(kept, x);
      NothingTaken(x);
      assert arrivals[1..] == [];
    }
  }

  /** A tail never yields a message again exactly when Skip fails on it, or when it
      is an unclosed string that leaves no room for its closing, or a value that
      leaves no room for another byte. */
  lemma BlockedIff(kept: string)
    requires 0 < |kept| <= CMD_SIZE && !IsSpace(kept[0])
    ensures Blocked(kept) <==> Skip(kept, 0) == ERROR || |kept| + Need(kept) > CMD_SIZE
  {
    if Skip(kept, 0) == ERROR {
      forall arrivals {:trigger Fits(kept, arrivals)} | Fits(kept, arrivals)
        ensures Handled(kept, arrivals) == []
      {
        ErrorBlocks(kept, arrivals);
      }
    } else if |kept| + Need(kept) > CMD_SIZE {
      forall arrivals {:trigger Fits(kept, arrivals)} | Fits(kept, arrivals)
        ensures Handled(kept, arrivals) == []
      {
        NoRoomBlocks(kept, arrivals);
      }
    } else {
      CompletionYields(kept);
      OneReadYields(kept, Completion(kept));
    }
  }

  lemma OneReadYields(kept: string, read: string)
    requires |kept| + |read| <= CMD_SIZE && read != "" && R.GetJSON(kept + read, 0).Some?
    ensures Fits(kept, [read]) && Handled(kept, [read]) != []
  {
    hide R.GetJSON;
    MessagesStep(kept + read, 0);
    assert PassOver(kept + read).messages != [];
    assert [read][1..] == [];
  }

  /** "{#" blocks a connection although its first byte starts a value. */
  lemma BraceHashBlocks()
    ensures PassOver("{#") == Pass([], "", "{#") && Blocked("{#")
  {
    var s := "{#";
    assert StepAt(s, 0) == Advance(1, 1) && StepAt(s, 1).Bad?;
    assert Skip(s, 0) == ERROR;
    NothingTaken(s);
    BlockedIff(s);
  }

  // ---- messages that wait ------------------------------------------------

  lemma JsonShifts(s: Text, n: nat)
    requires n <= |s|
    ensures R.GetJSON(s[n..], 0).Some? <==> R.GetJSON(s, n).Some?
  {
    E.SkipShifts(s, n, 0, 0);
  }

  /** A complete message stays behind in the tail until the next read exactly when
      the pass came to a space and the message stands behind the spaces there. */
  lemma DelayedIffBehindSpace(s: Text)
    ensures var end := Messages(s, 0).1;
            R.GetJSON(PassOver(s).kept, 0).Some? <==>
              end < |s| && IsSpace(s[end]) && R.GetJSON(s, SpaceEnd(s, end)).Some?
  {
    hide R.GetJSON;
    var end := Messages(s, 0).1;
    MessagesAreBytes(s, 0);
    JsonShifts(s, SpaceEnd(s, end));
    if end == |s| { NoJsonAtEnd(s); }
  }

  lemma NoJsonAtEnd(s: Text)
    ensures R.GetJSON(s, |s|).None?
  {
  }

  /** A second line waits for the next read ... */
  lemma SecondLineWaits()
    ensures PassOver("1\n2") == Pass(["1"], "\n", "2")
  {
    var s := "1\n2";
    assert StepAt(s, 0) == Advance(2, 0) && StepAt(s, 1).Bad?;
    assert R.TrimEnd(s, 0, 2) == 1 && s[0..1] == "1";
    assert R.GetJSON(s, 0) == Some("1") && R.GetJSON(s, 1).None?;
    MessagesStep(s, 0);
    MessagesStep(s, 1);
    assert SpaceEnd(s, 1) == 2 && s[1..2] == "\n" && s[2..] == "2";
  }

  /** ... while an unclosed object does not wait for its end. */
  lemma UnclosedTaken()
    ensures PassOver("{") == Pass(["{"], "", "")
  {
    var s := "{";
    assert StepAt(s, 0) == Advance(1, 1) && Skip(s, 0) == 1;
    assert R.TrimEnd(s, 0, 1) == 1 && s[0..1] == "{";
    assert R.GetJSON(s, 0) == Some("{");
    MessagesStep(s, 0);
    MessagesStep(s, 1);
    assert s[1..1] == "" && s[1..] == "";
  }

  lemma Consumed(pieces: seq<string>, ms: seq<string>, s: Text, end: nat, after: nat)
    requires end <= after <= |s| && Concat(ms) == s[..end]
    ensures Concat(pieces + ms + [s[end..after]]) + s[after..] == Concat(pieces) + s
  {
    ConcatSum(pieces + ms, [s[end..after]]);
    ConcatSum(pieces, ms);
    assert [s[end..after]][..0] == [];
    assert s == s[..end] + s[end..after] + s[after..];
  }

  // ---- the object --------------------------------------------------------

  class Daemon {
    const cmd_buf: array<char>
    var occupied: nat
    var handled: seq<string>     // messages passed to the request handlers
    ghost var pieces: seq<string>  // messages and runs of spaces consumed, in order
    ghost var received: string     // all bytes read since the last disconnect

    /** What was received is what was consumed followed by the kept tail. */
    ghost predicate Valid()
      reads this, cmd_buf
    {
      && cmd_buf.Length == CMD_SIZE + 1 && occupied <= CMD_SIZE
      && received == Concat(pieces) + cmd_buf[..occupied]
    }

    constructor ()
      ensures Valid() && received == "" && pieces == [] && handled == [] && occupied == 0
      ensures fresh(cmd_buf)
    {
      cmd_buf := new char[CMD_SIZE + 1];
      occupied, handled, pieces, received := 0, [], [], "";
    }

    /** handleInput on the outcome of read(): an error, or bytes, none of them meaning
        a disconnect.  A full buffer leaves no room to read into, so it counts as one
        too, and its contents are dropped. */
    method HandleInput(input: Option<string>) returns (rc: int)
      requires Valid() && (input.Some? ==> |input.value| <= CMD_SIZE - occupied)
      modifies this, cmd_buf
      ensures Valid()
      ensures rc == if input.None? then -1 else if input.value == "" then -2 else 0
      ensures old(occupied) == CMD_SIZE ==> rc != 0
      ensures rc == -1 ==>
                received == old(received) && pieces == old(pieces) && handled == old(handled)
                && cmd_buf[..occupied] == old(cmd_buf[..occupied])
      ensures rc == -2 ==> occupied == 0 && received == "" && handled == old(handled)
      ensures rc == 0 ==>
                var p := PassOver(old(cmd_buf[..occupied]) + input.value);
                && received == old(received) + input.value
                && handled == old(handled) + p.messages
                && pieces == old(pieces) + p.messages + [p.spaces]
                && cmd_buf[..occupied] == p.kept
    {
      if input.None? { return -1; }
      if |input.value| == 0 {
        occupied := 0;
        received, pieces := "", [];
        return -2;
      }
      ReadIn(input.value);
      TakeMessages();
      rc := 0;
    }

    /** read() behind what is in the buffer. */
    method ReadIn(bytes: string)
      requires Valid() && |bytes| <= CMD_SIZE - occupied
      modifies this`occupied, this`received, cmd_buf
      ensures Valid() && received == old(received) + bytes
      ensures cmd_buf[..occupied] == old(cmd_buf[..occupied]) + bytes
    {
      ghost var before := cmd_buf[..occupied];
      forall k | 0 <= k < |bytes| { cmd_buf[occupied + k] := bytes[k]; }
      occupied := occupied + |bytes|;
      received := received + bytes;
      assert cmd_buf[..occupied] == before + bytes;
      assert Concat(pieces) + (before + bytes) == (Concat(pieces) + before) + bytes;
    }

    /** The messages at the front of the buffer, and the spaces behind them. */
    method TakeMessages()
      requires Valid()
      modifies this`occupied, this`handled, this`pieces, cmd_buf
      ensures Valid()
      ensures var p := PassOver(old(cmd_buf[..occupied]));
              && handled == old(handled) + p.messages
              && pieces == old(pieces) + p.messages + [p.spaces]
              && cmd_buf[..occupied] == p.kept
    {
      var s: Text := cmd_buf[..occupied];
      cmd_buf[occupied] := NUL;
      assert cmd_buf[..occupied] == s;
      var ms, end := HandleMessage(s);
      handled := handled + ms;
      var after := Parser.SkipSpace(s, end);
      MessagesAreBytes(s, 0);
      Consumed(pieces, ms, s, end, after);
      pieces := pieces + ms + [s[end..after]];
      KeepTail(after);
      assert cmd_buf[..occupied] == s[after..];
    }

    /** memmove of the tail to the buffer's front. */
    method KeepTail(after: nat)
      requires cmd_buf.Length == CMD_SIZE + 1 && after <= occupied <= CMD_SIZE
      modifies cmd_buf, this`occupied
      ensures occupied == old(occupied) - after
      ensures cmd_buf[..occupied] == old(cmd_buf[after..occupied])
    {
      var k := 0;
      var n := occupied - after;
      while k < n
        invariant k <= n
        invariant cmd_buf[..k] == old(cmd_buf[after..after + k])
        invariant cmd_buf[after + k..] == old(cmd_buf[after + k..])
      {
        cmd_buf[k] := cmd_buf[after + k];
        k := k + 1;
      }
      occupied := n;
    }
  }

  function Hashes(n: nat): (s: string)
    ensures |s| == n && (n > 0 ==> s[0] == '#')
  {
    seq(n, _ => '#')
  }

  lemma HashesStay(n: nat)
    requires 0 < n <= CMD_SIZE
    ensures PassOver(Hashes(n)) == Pass([], "", Hashes(n))
  {
    hide Hashes;
    var s := Hashes(n);
    assert StepAt(s, 0).Bad? && R.GetJSON(s, 0).None?;
    NothingTaken(s);
  }

  lemma NothingAppended(a: string, n: nat, b: string)
    requires n == 0 <= |a|
    ensures a[..n] + b == b
  {
  }

  /** 512 bytes that no message comes out of, and then an empty read, as the next one
      must be: the connection counts as closed and all its bytes are dropped. */
  method FullBufferDropped() returns (first: int, filled: nat, second: int, left: nat)
    ensures first == 0 && filled == CMD_SIZE && second == -2 && left == 0
  {
    var d := new Daemon();
    var s := Hashes(CMD_SIZE);
    HashesStay(CMD_SIZE);
    hide *;
    NothingAppended(d.cmd_buf[..], d.occupied, s);
    assert d.cmd_buf[..][..d.occupied] == d.cmd_buf[..d.occupied];
    first := d.HandleInput(Some(s));
    assert |d.cmd_buf[..d.occupied]| == CMD_SIZE;
    filled := d.occupied;
    second := d.HandleInput(Some(""));
    left := d.occupied;
  }
}
