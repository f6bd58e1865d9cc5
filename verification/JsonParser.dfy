// The loops of src/json/js.c and of JSONTree::ReadValue (src/json/jstree.cpp),
// proved against the functions of JsonScan and JsonRead.
module JsonParser {
  import opened Common
  import opened JsonChars
  import opened JsonValue
  import opened JsonScan
  import R = JsonRead

  // ---- skipping ----------------------------------------------------------

  method SkipString(s: Text, i: nat) returns (r: nat)
    requires i < |s|
    ensures r == StrEnd(s, i + 1)
  {
    var j := i + 1;
    while j < |s| && s[j] != '"'
      invariant StrEnd(s, j) == StrEnd(s, i + 1)
      decreases |s| - j
    {
      if s[j] == '\\' { j := j + 1; }
      j := j + 1;
    }
    r := j + 1;
  }

  method SkipWord(s: Text, i: nat) returns (r: nat)
    requires i < |s| && IsWordBegin(s[i])
    ensures r == WordEnd(s, i + 1)
  {
    r := i + 1;
    while r < |s| && IsWordNonBegin(s[r])
      invariant r <= |s|
      invariant WordEnd(s, r) == WordEnd(s, i + 1)
    {
      r := r + 1;
    }
  }

  method SkipSpace(s: Text, i: nat) returns (r: nat)
    ensures r == SpaceEnd(s, i)
  {
    r := i;
    while r < |s| && IsSpace(s[r])
      invariant SpaceEnd(s, r) == SpaceEnd(s, i)
    {
      r := r + 1;
    }
  }

  /** Skip: one counter for all brackets, whatever their kind. */
  method SkipValue(s: Text, i: nat) returns (r: nat)
    ensures r == Skip(s, i)
  {
    var j, lvl := i, 0;
    while true
      invariant SkipFlat(s, j, lvl) == SkipFlat(s, i, 0)
      decreases |s| - j
    {
      if j >= |s| { return |s|; }
      var ch := s[j];
      ghost var step := StepAt(s, j);
      if ch == '"' {
        j := SkipString(s, j);
      } else if IsWordBegin(ch) {
        j := SkipWord(s, j);
      } else {
        j := j + 1;
        if ch == ':' || ch == ',' {
        } else if ch == '{' || ch == '[' {
          lvl := lvl + 1;
        } else if ch == '}' || ch == ']' {
          lvl := lvl - 1;
        } else {
          return ERROR;
        }
      }
      j := SkipSpace(s, j);
      assert step.Advance? && j == step.next;
      if lvl <= 0 { return j; }
    }
  }

  // ---- strings -----------------------------------------------------------

  /** Whether every escape still fits a buffer of `nSize` bytes when `k` bytes
      have been decoded before `id`; plain bytes are silently cut instead. */
  predicate EscapesFit(s: Text, id: nat, k: nat, nSize: nat)
    decreases |s| - id
  {
    if id >= |s| || s[id] == '"' then true
    else if s[id] == '\\' then
      match R.ReadEscape(s, id + 1)
      case BadEscape => true
      case Esc(bytes, len) => k + |bytes| < nSize && EscapesFit(s, id + 1 + len, k + |bytes|, nSize)
    else EscapesFit(s, id + 1, k + 1, nSize)
  }

  /** A buffer that holds the decoded bytes and the NUL holds every escape. */
  lemma {:induction false} ReportedSizeFits(s: Text, id: nat, k: nat, nSize: nat)
    requires R.Decode(s, id).Some? && k + |R.Decode(s, id).value| < nSize
    ensures EscapesFit(s, id, k, nSize)
    decreases |s| - id
  {
    if s[id] == '"' {
    } else if s[id] == '\\' {
      var e := R.ReadEscape(s, id + 1);
      ReportedSizeFits(s, id + 1 + e.len, k + |e.bytes|, nSize);
    } else {
      ReportedSizeFits(s, id + 1, k + 1, nSize);
    }
  }

  /** Moving `x` from the undecoded rest to what has been decoded. */
  lemma Decoded(all: Option<string>, acc: string, x: string, rest: Option<string>)
    requires all == R.Prepend(acc, R.Prepend(x, rest))
    ensures all == R.Prepend(acc + x, rest)
  {
    if rest.Some? { assert acc + (x + rest.value) == acc + x + rest.value; }
  }

  /** GetString: sizes the decoded string when `pch` is null, else copies as much
      of it and its NUL as fits.  It fails on a malformed string, or when an
      escape does not fit the buffer with a byte to spare. */
  method GetString(s: Text, id: nat, pch: array?<char>, nSize: nat) returns (rc: nat, nReq: nat)
    requires pch != null ==> nSize <= pch.Length
    modifies pch
    ensures rc == 0 || rc == ERROR
    ensures rc == 0 <==>
              R.GetString(s, id).Some? && (pch != null ==> EscapesFit(s, id + 1, 0, nSize))
    ensures rc == 0 ==> nReq == |R.GetString(s, id).value| + 1
    ensures rc == 0 && pch != null ==>
              var n := Min(nSize, nReq);
              pch[..n] == (R.GetString(s, id).value + [NUL])[..n]
  {
    hide R.ReadEscape;
    nReq := 0;
    if id >= |s| || s[id] != '"' { return ERROR, 0; }
    var j, nTotal, pt := id + 1, 0, 0;
    ghost var all, acc := R.Decode(s, id + 1), "";
    assert all == R.Prepend(acc, all) by { assert all.Some? ==> "" + all.value == all.value; }
    while j < |s|
      invariant |acc| == nTotal && pt == (if pch == null then 0 else Min(nTotal, nSize))
      invariant all == R.Prepend(acc, R.Decode(s, j))
      invariant pch != null ==> (EscapesFit(s, id + 1, 0, nSize) <==> EscapesFit(s, j, nTotal, nSize))
      invariant pch != null ==> pch[..pt] == acc[..pt]
      decreases |s| - j
    {
      if s[j] == '"' {
        nReq := nTotal + 1;
        if pch != null && pt < nSize { pch[pt] := NUL; }
        return 0, nReq;
      } else if s[j] == '\\' {
        var e := R.ReadEscape(s, j + 1);
        if e.BadEscape? { return ERROR, 0; }
        Decoded(all, acc, e.bytes, R.Decode(s, j + 1 + e.len));
        if pch != null {
          if pt + |e.bytes| >= nSize { return ERROR, 0; }
          StoreEscape(pch, pt, e.bytes);
          pt := pt + |e.bytes|;
        }
        acc := acc + e.bytes;
        nTotal := nTotal + |e.bytes|;
        j := j + 1 + e.len;
      } else {
        Decoded(all, acc, [s[j]], R.Decode(s, j + 1));
        if pch != null && pt < nSize {
          pch[pt] := s[j];
          pt := pt + 1;
        }
        acc := acc + [s[j]];
        nTotal := nTotal + 1;
        j := j + 1;
      }
    }
    return ERROR, 0;
  }

  method StoreEscape(pch: array<char>, pt: nat, bytes: string)
    requires 1 <= |bytes| <= 3 && pt + |bytes| <= pch.Length
    modifies pch
    ensures pch[..pt + |bytes|] == old(pch[..pt]) + bytes
  {
    if |bytes| >= 3 { pch[pt + 2] := bytes[2]; }
    if |bytes| >= 2 { pch[pt + 1] := bytes[1]; }
    pch[pt] := bytes[0];
  }

  /** The sizing call, an allocation of just that size, and the copying call: the
      second never fails and gives the decoded bytes (NUL excluded). */
  method ReadString(s: Text, id: nat) returns (text: Option<string>)
    ensures text == R.GetString(s, id)
  {
    var rc, nReq := GetString(s, id, null, 0);
    if rc != 0 { return None; }
    var psz := new char[nReq];
    ReportedSizeFits(s, id + 1, 0, nReq);
    rc, nReq := GetString(s, id, psz, nReq);
    assert rc == 0;
    ghost var bytes := R.GetString(s, id).value;
    assert psz[..nReq - 1] == psz[..nReq][..nReq - 1] == (bytes + [NUL])[..nReq - 1] == bytes;
    text := Some(psz[..nReq - 1]);
  }

  method ReadKey(s: Text, id: nat) returns (key: Option<string>)
    ensures key == R.GetKey(s, id)
  {
    if id >= |s| { return None; }
    if s[id] == '"' {
      key := ReadString(s, id);
    } else if IsWordBegin(s[id]) {
      var j := id + 1;
      while j < |s| && R.IsTagChar(s[j])
        invariant j <= |s| && R.TagEnd(s, j) == R.TagEnd(s, id + 1)
      {
        j := j + 1;
      }
      key := Some(s[id..j]);
    } else {
      key := None;
    }
  }

  // ---- numbers -----------------------------------------------------------

  method GetJSON(s: Text, id: nat) returns (token: Option<string>)
    ensures token == R.GetJSON(s, id)
  {
    var i := SkipValue(s, id);
    if id < i <= |s| {
      var e := i;
      while e > id && IsSpace(s[e - 1])
        invariant id <= e <= i && R.TrimEnd(s, id, e) == R.TrimEnd(s, id, i)
      {
        e := e - 1;
      }
      token := Some(s[id..e]);
    } else {
      token := None;
    }
  }

  // ---- enumeration -------------------------------------------------------

  method NextPair(s: Text, i: nat) returns (m: Member)
    ensures m == ObjectNext(s, i)
  {
    var iColon := SkipValue(s, i);
    var iValue := SkipValue(s, iColon);
    var iSep := SkipValue(s, iValue);
    if i >= |s| {
      m := Member(ERROR, ERROR, iValue);
    } else if s[i] == '}' {
      m := Member(ENOMORE, ENOMORE, iValue);
    } else if iSep >= |s| || !(s[i] == '"' || IsTagBegin(s[i])) || s[iColon] != ':'
              || (s[iSep] != ',' && s[iSep] != '}') {
      m := Member(ERROR, ERROR, ERROR);
    } else {
      var next := iSep;
      if s[iSep] == ',' { next := SkipValue(s, iSep); }
      m := Member(next, i, iValue);
    }
  }

  method NextValue(s: Text, i: nat) returns (e: Element)
    ensures e == ArrayNext(s, i)
  {
    var iSep := SkipValue(s, i);
    if i >= |s| {
      e := Element(ERROR, ERROR);
    } else if s[i] == ']' {
      e := Element(ENOMORE, ENOMORE);
    } else if iSep >= |s| || (s[iSep] != ',' && s[iSep] != ']') {
      e := Element(ERROR, ERROR);
    } else {
      var next := iSep;
      if s[iSep] == ',' { next := SkipValue(s, iSep); }
      e := Element(next, i);
    }
  }

  // ---- building the tree -------------------------------------------------

  function After<T>(done: seq<T>, rest: R.Read<seq<T>>): R.Read<seq<T>>
  {
    match rest case Err(e) => R.Err(e) case Ok(more) => R.Ok(done + more)
  }

  lemma AfterStep<T>(all: R.Read<seq<T>>, done: seq<T>, x: T, rest: R.Read<seq<T>>)
    requires all == After(done, After([x], rest))
    ensures all == After(done + [x], rest)
  {
    if rest.Ok? { assert done + ([x] + rest.value) == done + [x] + rest.value; }
  }

  lemma AfterNothing<T>(all: R.Read<seq<T>>)
    ensures all == After([], all)
  {
    if all.Ok? { assert [] + all.value == all.value; }
  }

  /** JSONTree::ReadValue on any bytes: it always ends, and builds what the
      function of the same name says. */
  method ReadValue(s: Text, id: nat) returns (r: R.Read<JSValue>)
    ensures r == R.ReadValue(s, id)
    decreases |s| - id, 1
  {
    hide R.GetString, R.GetJSON, R.GetBool, Skip;
    if id >= |s| {
      r := R.Err(R.EBADFORMAT);
    } else if s[id] == '"' {
      var text := ReadString(s, id);
      r := if text.None? then R.Err(R.EPARSER) else R.Ok(JString(text.value));
    } else if s[id] == '[' {
      r := ReadArray(s, id);
    } else if s[id] == '{' {
      r := ReadObject(s, id);
    } else if s[id] == 'n' {
      r := R.Ok(JNull);
    } else if s[id] == 't' || s[id] == 'f' {
      var b := R.GetBool(s, id);
      r := if b.None? then R.Err(R.EPARSER) else R.Ok(JBool(b.value));
    } else if IsNumStart(s[id]) {
      var token := GetJSON(s, id);
      r := if token.None? then R.Err(R.EPARSER) else R.Ok(JNumber(token.value));
    } else {
      r := R.Err(R.EINVAL);
    }
  }

  method ReadObject(s: Text, id: nat) returns (r: R.Read<JSValue>)
    requires id < |s| && s[id] == '{'
    ensures r == R.ReadValue(s, id)
    decreases |s| - id, 0
  {
    hide ObjectNext, R.GetKey;
    var st := EnumInit(s, id, '{');
    if st == ERROR { return R.Err(R.EBADFORMAT); }
    var pairs: seq<JSPair> := [];
    ghost var all := R.ReadPairs(s, st);
    AfterNothing(all);
    while true
      invariant id < st < |s|
      invariant all == After(pairs, R.ReadPairs(s, st))
      decreases |s| - st
    {
      var m := NextPair(s, st);
      if m.next >= |s| { break; }
      var v := ReadValue(s, m.value);
      if v.Err? { return R.Err(v.error); }
      var key := ReadKey(s, m.key);
      if key.None? { return R.Err(R.EPARSER); }
      AfterStep(all, pairs, JSPair(CStr(key.value), v.value), R.ReadPairs(s, m.next));
      pairs := pairs + [JSPair(CStr(key.value), v.value)];
      st := m.next;
    }
    assert pairs + [] == pairs;
    r := R.Ok(JObject(pairs));
  }

  method ReadArray(s: Text, id: nat) returns (r: R.Read<JSValue>)
    requires id < |s| && s[id] == '['
    ensures r == R.ReadValue(s, id)
    decreases |s| - id, 0
  {
    hide ArrayNext;
    var st := EnumInit(s, id, '[');
    if st == ERROR { return R.Err(R.EBADFORMAT); }
    var values: seq<JSValue> := [];
    ghost var all := R.ReadItems(s, st);
    AfterNothing(all);
    while true
      invariant id < st < |s|
      invariant all == After(values, R.ReadItems(s, st))
      decreases |s| - st
    {
      var e := NextValue(s, st);
      if e.next >= |s| { break; }
      var v := ReadValue(s, e.value);
      if v.Err? { return R.Err(v.error); }
      AfterStep(all, values, v.value, R.ReadItems(s, e.next));
      values := values + [v.value];
      st := e.next;
    }
    assert values + [] == values;
    r := R.Ok(JArray(values));
  }
}
