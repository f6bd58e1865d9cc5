// The H.264 byte-stream splitter of src/omx/preview_component.cpp: copyOneNAL
// looks at four bytes at a time and jumps over all four where it can.
module NalScan {

  type byte = b: int | 0 <= b < 256

  // ---- start codes (Annex B of ITU-T H.264) ------------------------------

  /** get4Bytes: four bytes as one big-endian 32-bit word. */
  function Word(f: seq<byte>, q: nat): nat
    requires q + 4 <= |f|
  {
    var a: int, b: int, c: int, d: int := f[q], f[q + 1], f[q + 2], f[q + 3];
    ((a * 0x100 + b) * 0x100 + c) * 0x100 + d
  }

  /** is_nal_prefix: the size of the start code a word begins with, or 0. */
  function PrefixSize(word: nat): nat
  {
    if word == 1 then 4 else if word / 0x100 == 1 then 3 else 0
  }

  predicate Code4(f: seq<byte>, q: nat)
  {
    q + 4 <= |f| && f[q] == 0 && f[q + 1] == 0 && f[q + 2] == 0 && f[q + 3] == 1
  }

  /** A three-byte code, where a whole word is left to be looked at. */
  predicate Code3(f: seq<byte>, q: nat)
  {
    q + 4 <= |f| && f[q] == 0 && f[q + 1] == 0 && f[q + 2] == 1
  }

  predicate Code(f: seq<byte>, q: nat) { Code4(f, q) || Code3(f, q) }

  function CodeSize(f: seq<byte>, q: nat): nat
  {
    if Code4(f, q) then 4 else 3
  }

  lemma PrefixIsCode(f: seq<byte>, q: nat)
    requires q + 4 <= |f|
    ensures PrefixSize(Word(f, q)) == if Code(f, q) then CodeSize(f, q) else 0
  {
    var a: int, b: int, c: int, d: int := f[q], f[q + 1], f[q + 2], f[q + 3];
    assert Word(f, q) / 0x100 == (a * 0x100 + b) * 0x100 + c;
  }

  // ---- the scans ---------------------------------------------------------

  /** Where skipping to a start code stops: at one, or with no word left. */
  function SkipToCode(f: seq<byte>, i: nat): (r: nat)
    requires i <= |f|
    ensures i <= r <= |f|
    ensures r + 4 <= |f| ==> Code(f, r)
    ensures forall q {:trigger Code(f, q)} :: i <= q < r ==> !Code(f, q)
    decreases |f| - i
  {
    if i + 4 <= |f| && !Code(f, i) then SkipToCode(f, i + 1) else i
  }

  /** Where copying stops: four bytes at a time when the fourth is not zero. */
  function JumpScan(f: seq<byte>, i: nat): (r: nat)
    requires i <= |f|
    ensures i <= r <= |f|
    ensures r < |f| ==> Code(f, r)
    decreases |f| - i
  {
    if i == |f| then i
    else if i + 4 <= |f| then
      if Code(f, i) then i
      else if f[i + 3] == 0 then JumpScan(f, i + 1)
      else JumpScan(f, i + 4)
    else JumpScan(f, i + 1)
  }

  /** The plain search for the next start code, one byte at a time. */
  function ByteScan(f: seq<byte>, i: nat): (r: nat)
    requires i <= |f|
    ensures i <= r <= |f|
    ensures r < |f| ==> Code(f, r)
    ensures forall q {:trigger Code(f, q)} :: i <= q < r ==> !Code(f, q)
    decreases |f| - i
  {
    if i == |f| || Code(f, i) then i else ByteScan(f, i + 1)
  }

  /** One call of copyOneNAL on the bytes `f`: what it scans over, and the slice
      of `f` that is the unit. */
  datatype Unit = Unit(scanned: nat, begin: nat, end: nat)

  function OneNal(f: seq<byte>): (u: Unit)
    ensures u.begin <= u.end <= u.scanned <= |f|
    ensures f != [] ==> u.scanned > 0
  {
    var q := SkipToCode(f, 0);
    if q + 4 <= |f| then
      var start := q + CodeSize(f, q);
      var end := JumpScan(f, start);
      Unit(end, start, end)
    else Unit(|f|, 0, 0)
  }

  /** On any bytes a call yields one contiguous slice, and skipped bytes, start
      code and unit add up to the count returned. */
  lemma OneNalAccounts(f: seq<byte>)
    ensures var u := OneNal(f);
            var q := SkipToCode(f, 0);
            if q + 4 <= |f| then Code(f, q) && q + CodeSize(f, q) + (u.end - u.begin) == u.scanned
            else u.scanned == |f| && u.begin == u.end
  {
  }

  /** No start code begins before offset `n`. */
  ghost predicate NoCodeBefore(f: seq<byte>, n: nat)
  {
    forall k {:trigger Code(f, k)} :: 0 <= k < n ==> !Code(f, k)
  }

  /** The unit begins behind the first start code, of either size, that is anywhere in
      the bytes. */
  lemma BeginsAtFirstCode(f: seq<byte>, q: nat)
    requires Code(f, q) && NoCodeBefore(f, q)
    ensures var begin := q + if f[q + 2] == 1 then 3 else 4;
            OneNal(f) == Unit(JumpScan(f, begin), begin, JumpScan(f, begin))
  {
    hide JumpScan, SkipToCode;
    var r := SkipToCode(f, 0);
    assert r + 4 <= |f| ==> Code(f, r);
    assert r + 4 > |f| ==> r > q;
  }

  /** Without one all bytes are skipped. */
  lemma NoCodeNoUnit(f: seq<byte>)
    requires NoCodeBefore(f, |f|)
    ensures OneNal(f) == Unit(|f|, 0, 0)
  {
    hide JumpScan, SkipToCode;
    var r := SkipToCode(f, 0);
    if r + 4 <= |f| { assert false; }
  }

  // ---- the jump against the byte search ----------------------------------

  /** On any bytes the jumping scan never passes a four-byte start code. */
  lemma {:induction false} JumpStopsAtCode4(f: seq<byte>, i: nat, q: nat)
    requires i <= q && Code4(f, q)
    ensures JumpScan(f, i) <= q
    decreases |f| - i
  {
    if i < q && !Code(f, i) {
      if f[i + 3] == 0 { JumpStopsAtCode4(f, i + 1, q); } else { JumpStopsAtCode4(f, i + 4, q); }
    }
  }

  /** When the next start code, if there is one, has four bytes, the jumping scan
      stops exactly where the byte-by-byte search does. */
  lemma JumpIsByteScan(f: seq<byte>, i: nat)
    requires i <= |f|
    requires var q := ByteScan(f, i); q == |f| || q == i || Code4(f, q)
    ensures JumpScan(f, i) == ByteScan(f, i)
  {
    var q, r := ByteScan(f, i), JumpScan(f, i);
    assert r < |f| ==> Code(f, r);
    if q < |f| && q != i { JumpStopsAtCode4(f, i, q); }
  }

  /** The next byte to be looked at as the fourth from where the scan stands, when
      the bytes from `i` to `k` have been passed: the one behind a zero looked at,
      the fourth behind any other. */
  function Look(f: seq<byte>, i: nat, k: nat): (r: nat)
    requires i <= k <= |f|
    ensures k <= r <= k + 3
  {
    if k == i then i + 3
    else
      var r := Look(f, i, k - 1);
      if r > k - 1 then r else if f[k - 1] == 0 then k else k + 3
  }

  /** A three-byte code that is not the tail of a four-byte one at `i` or later. */
  predicate BareAt(f: seq<byte>, i: nat, q: nat)
  {
    i <= q && Code3(f, q) && (q > i ==> f[q - 1] != 0)
  }

  /** From one to three bytes before a code the scan steps on to the byte before it
      and jumps over it. */
  lemma NearMiss(f: seq<byte>, p: nat, q: nat)
    requires p < q <= p + 3 && Code3(f, q) && forall k :: p <= k < q ==> !Code(f, k)
    ensures JumpScan(f, p) > q
  {
    assert JumpScan(f, q - 1) >= q + 3;
    if p <= q - 2 { assert JumpScan(f, q - 2) == JumpScan(f, q - 1); }
    if p <= q - 3 { assert JumpScan(f, q - 3) == JumpScan(f, q - 2); }
  }

  lemma LookAhead(f: seq<byte>, i: nat, p: nat, k: nat)
    requires i <= p <= k <= p + 3 && k <= |f| && Look(f, i, p) == p + 3
    ensures Look(f, i, k) == p + 3
  {
    if k > p { LookAhead(f, i, p, k - 1); }
  }

  /** Standing at `p`, at least three bytes before a bare code at `q`. */
  lemma {:induction false} MeetsByLook(f: seq<byte>, i: nat, p: nat, q: nat)
    requires i <= p && p + 3 <= q && BareAt(f, i, q) && forall k :: i <= k < q ==> !Code(f, k)
    requires Look(f, i, p + 3) == p + 3
    ensures JumpScan(f, p) == q <==> Look(f, i, q) == q + 3
    decreases q - p
  {
    if p + 3 == q {
      NearMiss(f, p, q);
    } else if p + 4 == q {
      assert JumpScan(f, p) == JumpScan(f, q) == q;
    } else if f[p + 3] == 0 {
      MeetsByLook(f, i, p + 1, q);
    } else {
      hide Code;
      assert Look(f, i, p + 4) == p + 7;
      if p + 7 <= q {
        LookAhead(f, i, p + 4, p + 7);
        MeetsByLook(f, i, p + 4, q);
      } else {
        LookAhead(f, i, p + 4, q);
        NearMiss(f, p + 4, q);
      }
    }
  }

  lemma FirstCodeBare(f: seq<byte>, i: nat)
    requires i <= |f|
    ensures var q := ByteScan(f, i); q < |f| && !Code4(f, q) ==> BareAt(f, i, q)
  {
    var q := ByteScan(f, i);
    if i < q < |f| { assert !Code(f, q - 1); }
  }

  /** On any bytes, from any place, the jumping scan stops where the byte-by-byte
      search does exactly when that search meets no code, a four-byte one, or a bare
      one at which the scan comes to stand. */
  lemma JumpMeetsByteScan(f: seq<byte>, i: nat)
    requires i <= |f|
    ensures var q := ByteScan(f, i);
            JumpScan(f, i) == q <==> q == |f| || Code4(f, q) || Look(f, i, q) == q + 3
  {
    hide Look, JumpScan;
    var q, r: nat := ByteScan(f, i), JumpScan(f, i);
    if q == |f| {
      assert r == |f| || Code(f, r);
    } else if Code4(f, q) {
      JumpIsByteScan(f, i);
    } else {
      assert Look(f, i, i) == i + 3 by { LookStart(f, i); }
      if q < i + 3 {
        LookAhead(f, i, i, q);
        if q == i { JumpIsByteScan(f, i); } else { NearMiss(f, i, q); }
      } else {
        FirstCodeBare(f, i);
        LookAhead(f, i, i, i + 3);
        MeetsByLook(f, i, i, q);
      }
    }
  }

  lemma LookStart(f: seq<byte>, i: nat)
    requires i <= |f|
    ensures Look(f, i, i) == i + 3
  {
  }

  lemma {:induction false} LookWithoutZeros(f: seq<byte>, i: nat, k: nat)
    requires i <= k <= |f| && forall j :: i <= j < k ==> f[j] != 0
    ensures (Look(f, i, k) - i) % 4 == 3
  {
    if k > i { LookWithoutZeros(f, i, k - 1); }
  }

  /** Over bytes without a zero a bare code is met exactly at a multiple of four. */
  lemma BareCodeMet(f: seq<byte>, i: nat, q: nat)
    requires i <= q && Code3(f, q) && forall j :: i <= j < q ==> f[j] != 0
    ensures JumpScan(f, i) == q <==> (q - i) % 4 == 0
  {
    hide JumpScan, Look;
    var r := ByteScan(f, i);
    assert Code(f, q) && r <= q;
    assert Code(f, r) && f[r] == 0;
    LookWithoutZeros(f, i, q);
    JumpMeetsByteScan(f, i);
  }

  /** Every three-byte code from `i` on is the tail of a four-byte one that also
      begins at `i` or later. */
  ghost predicate OnlyFullCodes(f: seq<byte>, i: nat)
  {
    forall q {:trigger Code3(f, q)} :: i <= q && Code3(f, q) ==> q > i && f[q - 1] == 0
  }

  /** In such a stream the jumping scan refines the byte search from any place. */
  lemma JumpRefinesBytes(f: seq<byte>, i: nat)
    requires i <= |f| && OnlyFullCodes(f, i)
    ensures JumpScan(f, i) == ByteScan(f, i)
  {
    var q := ByteScan(f, i);
    if i < q < |f| { assert !Code(f, q - 1); }
    JumpIsByteScan(f, i);
  }

  /** A bare three-byte code one byte ahead of the scan point is jumped over. */
  lemma BareCodeMissed()
    ensures var f: seq<byte> := [0, 0, 0, 1, 5, 0, 0, 1, 7];
            ByteScan(f, 4) == 5 && JumpScan(f, 4) == 9
  {
    var f: seq<byte> := [0, 0, 0, 1, 5, 0, 0, 1, 7];
    assert !Code(f, 4) && Code(f, 5);
    assert JumpScan(f, 8) == JumpScan(f, 9);
  }

  // ---- splitting undoes joining ------------------------------------------

  /** A NAL unit as section 7.4.1 of ITU-T H.264 allows it in a byte stream: not
      empty, no 00 00 00 and no 00 00 01 inside, and not ending in 00. */
  ghost predicate NalOk(n: seq<byte>)
  {
    && n != [] && n[|n| - 1] != 0
    && forall q {:trigger n[q]} :: 0 <= q && q + 2 < |n| && n[q] == 0 && n[q + 1] == 0 ==> n[q + 2] > 1
  }

  const START_CODE: seq<byte> := [0, 0, 0, 1]

  function Join(nals: seq<seq<byte>>): seq<byte>
  {
    if nals == [] then [] else START_CODE + nals[0] + Join(nals[1..])
  }

  /** The units that repeated calls of copyOneNAL take from the bytes `f`. */
  function Split(f: seq<byte>): seq<seq<byte>>
    decreases |f|
  {
    if f == [] then []
    else
      var u := OneNal(f);
      [f[u.begin..u.end]] + Split(f[u.scanned..])
  }

  /** From inside a unit, the scan runs to the unit's end. */
  lemma {:induction false} ScanUnit(f: seq<byte>, begin: nat, end: nat, k: nat)
    requires begin <= k <= end <= |f| && NalOk(f[begin..end])
    requires end == |f| || Code4(f, end)
    ensures JumpScan(f, k) == end
    decreases end - k
  {
    var n := f[begin..end];
    if k < end {
      assert n[|n| - 1] == f[end - 1];
      InsideNoCode(f, begin, end, k);
      if k + 4 <= |f| && f[k + 3] != 0 {
        ScanUnit(f, begin, end, k + 4);
      } else {
        ScanUnit(f, begin, end, k + 1);
      }
    }
  }

  lemma InsideNoCode(f: seq<byte>, begin: nat, end: nat, k: nat)
    requires begin <= k < end <= |f| && NalOk(f[begin..end])
    requires end == |f| || Code4(f, end)
    ensures !Code(f, k)
    ensures k + 4 <= |f| && f[k + 3] != 0 ==> k + 4 <= end
  {
    var n := f[begin..end];
    assert n[|n| - 1] == f[end - 1];
    assert n[k - begin] == f[k];
    if k + 1 < end { assert n[k + 1 - begin] == f[k + 1]; }
    if k + 2 < end { assert n[k + 2 - begin] == f[k + 2]; }
  }

  lemma CodeAtFront(f: seq<byte>)
    requires 4 <= |f| && f[..4] == START_CODE
    ensures Code4(f, 0) && SkipToCode(f, 0) == 0
  {
    assert f[0] == f[..4][0] && f[1] == f[..4][1] && f[2] == f[..4][2] && f[3] == f[..4][3];
  }

  /** One unit behind a start code, followed by the end or by the next code. */
  lemma OneUnit(f: seq<byte>, unit: seq<byte>, rest: seq<byte>)
    requires f == START_CODE + unit + rest && NalOk(unit)
    requires rest == [] || (4 <= |rest| && rest[..4] == START_CODE)
    ensures OneNal(f) == Unit(4 + |unit|, 4, 4 + |unit|)
    ensures f[4..4 + |unit|] == unit && f[4 + |unit|..] == rest
  {
    hide JumpScan, NalOk, SkipToCode;
    var end := 4 + |unit|;
    assert f[..4] == START_CODE && f[4..end] == unit && f[end..] == rest;
    CodeAtFront(f);
    if rest != [] {
      CodeAtFront(rest);
      assert forall k :: 0 <= k < 4 ==> f[end + k] == rest[k];
    }
    ScanUnit(f, 4, end, 4);
  }

  lemma FirstUnit(nals: seq<seq<byte>>)
    requires nals != [] && forall k :: 0 <= k < |nals| ==> NalOk(nals[k])
    ensures var f, end := Join(nals), 4 + |nals[0]|;
            && OneNal(f) == Unit(end, 4, end)
            && f[4..end] == nals[0] && f[end..] == Join(nals[1..])
  {
    hide OneNal, NalOk;
    var rest := Join(nals[1..]);
    if |nals| > 1 {
      assert rest == START_CODE + nals[1] + Join(nals[1..][1..]);
      assert rest[..4] == START_CODE;
    }
    OneUnit(Join(nals), nals[0], rest);
  }

  /** Joining units with four-byte start codes and splitting the stream again
      gives back exactly those units in order, and uses up every byte. */
  lemma {:induction false} SplitJoin(nals: seq<seq<byte>>)
    requires forall k :: 0 <= k < |nals| ==> NalOk(nals[k])
    ensures Split(Join(nals)) == nals
  {
    if nals != [] {
      FirstUnit(nals);
      SplitJoin(nals[1..]);
    }
  }

  const SHORT_CODE: seq<byte> := [0, 0, 1]

  /** A unit behind bytes in which no code begins and a code of either size, followed
      by the end or by a four-byte code. */
  lemma UnitBehind(f: seq<byte>, junk: seq<byte>, code: seq<byte>, unit: seq<byte>, rest: seq<byte>)
    requires f == junk + code + unit + rest && NalOk(unit) && (code == START_CODE || code == SHORT_CODE)
    requires rest == [] || (4 <= |rest| && rest[..4] == START_CODE)
    requires NoCodeBefore(f, |junk|)
    ensures var begin, end := |junk| + |code|, |junk| + |code| + |unit|;
            OneNal(f) == Unit(end, begin, end) && f[begin..end] == unit && f[end..] == rest
  {
    hide JumpScan, NalOk, OneNal;
    var q := |junk|;
    var begin, end := q + |code|, q + |code| + |unit|;
    assert f[q..begin] == code && f[begin..end] == unit && f[end..] == rest;
    assert |unit| > 0 by { UnitNotEmpty(unit); }
    CodeBehind(f, q, code);
    BeginsAtFirstCode(f, q);
    if rest != [] {
      CodeAtFront(rest);
      assert forall k :: 0 <= k < 4 ==> f[end + k] == rest[k];
    }
    ScanUnit(f, begin, end, begin);
  }

  lemma UnitNotEmpty(unit: seq<byte>)
    requires NalOk(unit)
    ensures unit != []
  {
  }

  lemma CodeBehind(f: seq<byte>, q: nat, code: seq<byte>)
    requires code == START_CODE || code == SHORT_CODE
    requires q + |code| < |f| && f[q..q + |code|] == code
    ensures Code(f, q) && |code| == if f[q + 2] == 1 then 3 else 4
  {
    assert forall k :: 0 <= k < |code| ==> f[q + k] == code[k];
  }

  /** ... so a stream that begins with such bytes and whose first code is of either
      size splits into exactly its units too. */
  lemma SplitBehindJunk(junk: seq<byte>, code: seq<byte>, nals: seq<seq<byte>>)
    requires nals != [] && forall k :: 0 <= k < |nals| ==> NalOk(nals[k])
    requires code == START_CODE || code == SHORT_CODE
    requires NoCodeBefore(junk + code + nals[0] + Join(nals[1..]), |junk|)
    ensures Split(junk + code + nals[0] + Join(nals[1..])) == nals
  {
    hide OneNal, NalOk, Code, NoCodeBefore;
    var rest := Join(nals[1..]);
    if |nals| > 1 {
      assert rest == START_CODE + nals[1] + Join(nals[1..][1..]);
      assert rest[..4] == START_CODE;
    }
    var f := junk + code + nals[0] + rest;
    UnitBehind(f, junk, code, nals[0], rest);
    SplitJoin(nals[1..]);
  }
}
