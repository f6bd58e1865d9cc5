// The loops of the text lookup (src/json/js.c), proved against JsonLookup.
module JsonLookupLoops {
  import opened Common
  import opened JsonChars
  import opened JsonValue
  import opened JsonScan
  import opened JsonRead
  import opened JsonPath
  import L = JsonLookup
  import Parser = JsonParser

  /** JSONParser_StrCmp: `id` is the key's offset, quote included. */
  method CompareKey(s: Text, id: nat, key: string, nLen: nat) returns (same: bool)
    requires nLen <= |key|
    ensures same == L.StrCmp(s, id + 1, key, 0, nLen)
  {
    hide ReadEscape;
    var j, k := id + 1, 0;
    while j < |s| && s[j] != '"' && k < nLen && key[k] != '.'
      invariant 0 <= k <= nLen
      invariant L.StrCmp(s, j, key, k, nLen) == L.StrCmp(s, id + 1, key, 0, nLen)
      decreases |s| - j
    {
      if s[j] == '\\' {
        var e := ReadEscape(s, j + 1);
        if e.BadEscape? || k + |e.bytes| >= nLen { return false; }
        if key[k..k + |e.bytes|] != e.bytes { return false; }
        k := k + |e.bytes|;
        j := j + 1 + e.len;
      } else {
        if s[j] != key[k] { return false; }
        j, k := j + 1, k + 1;
      }
    }
    same := j < |s| && s[j] == '"' && (k == |key| || key[k] == '.');
  }

  method ObjectLookup(s: Text, id: nat, key: string, nLen: nat) returns (value: Option<nat>)
    requires id < |s| && 0 < nLen <= |key|
    ensures value == var st := EnumInit(s, id, '{');
                     if st == ERROR then None else L.FindKey(s, st, key, nLen)
  {
    hide ObjectNext, L.StrCmp, Skip;
    var st := EnumInit(s, id, '{');
    if st == ERROR { return None; }
    ghost var first := st;
    while true
      invariant st < |s|
      invariant L.FindKey(s, st, key, nLen) == L.FindKey(s, first, key, nLen)
      decreases |s| - st
    {
      var m := Parser.NextPair(s, st);
      if m.next >= |s| { return None; }
      var same := CompareKey(s, m.key, key, nLen);
      if same { return Some(m.value); }
      st := m.next;
    }
  }

  method ArrayLookup(s: Text, id: nat, index: nat) returns (value: Option<nat>)
    requires id < |s|
    ensures value == var st := EnumInit(s, id, '[');
                     if st == ERROR then None else L.FindNth(s, st, index)
  {
    hide ArrayNext, Skip;
    var st: nat := EnumInit(s, id, '[');
    if st == ERROR { return None; }
    ghost var first := st;
    var i: nat, found := 0, id;
    while i <= index
      invariant i <= index + 1 && st < |s|
      invariant L.FindNth(s, first, index) ==
                if i <= index then L.FindNth(s, st, index - i) else Some(found)
    {
      var e := Parser.NextValue(s, st);
      if e.next >= |s| { return None; }
      st, found := e.next, e.value;
      i := i + 1;
    }
    value := Some(found);
  }

  /** JSONParser_Lookup with segments separated by '.'. */
  method LookupPath(s: Text, id: nat, path: string) returns (value: Option<nat>)
    requires L.PathOk(path)
    ensures value == L.Lookup(s, id, path)
  {
    hide SegLen, Seg, More, Rest, EnumInit, L.FindKey, L.FindNth, Uint;
    var v, nConsumed := id, 0;
    assert path[0..] == path;
    while true
      invariant nConsumed <= |path| && L.PathOk(path[nConsumed..])
      invariant L.Lookup(s, v, path[nConsumed..]) == L.Lookup(s, id, path)
      decreases |path| - nConsumed
    {
      var rest := path[nConsumed..];
      var dot := NextDot(path, nConsumed);
      var seg := LookupOne(s, v, rest, path[nConsumed..dot]);
      if seg.None? { return None; }
      v := seg.value;
      if dot + 1 >= |path| { return Some(v); }
      nConsumed := dot + 1;
    }
  }

  method LookupOne(s: Text, id: nat, p: string, seg: string) returns (value: Option<nat>)
    requires seg == Seg(p) && SegLen(p) > 0
    ensures value == L.FindSegment(s, id, p)
  {
    var start := id;
    if id == 0 { start := Parser.SkipSpace(s, 0); }
    if start >= |s| { return None; }
    if s[start] == '[' {
      var index := ReadUint(seg);
      if index.None? { return None; }
      value := ArrayLookup(s, start, index.value);
    } else if s[start] == '{' {
      value := ObjectLookup(s, start, p, |seg|);
    } else {
      value := None;
    }
  }

  /** ReadUintFromKey, whose unsigned arithmetic wraps. */
  method ReadUint(seg: string) returns (num: Option<nat>)
    ensures num == Uint(seg, 0)
  {
    var k, n := 0, 0;
    assert seg[0..] == seg;
    while k < |seg| && IsDigit(seg[k])
      invariant 0 <= k <= |seg| && 0 <= n < 0x1_0000_0000
      invariant Uint(seg[k..], n) == Uint(seg, 0)
    {
      assert seg[k..][1..] == seg[k + 1..];
      n := (10 * n + (seg[k] as int - '0' as int)) % 0x1_0000_0000;
      k := k + 1;
    }
    num := if k == |seg| then Some(n) else None;
  }
}
