// Reading values out of JSON text: escapes and strings, numbers' tokens,
// booleans and nulls (src/json/js.c), and JSONTree::ReadValue, which builds the
// tree (src/json/jstree.cpp).
module JsonRead {
  import opened Common
  import opened JsonChars
  import opened JsonScan
  import opened JsonValue

  // ---- escapes -----------------------------------------------------------

  function HexValue(c: char): (r: Option<nat>)
    ensures r.Some? ==> r.value < 16
  {
    if IsDigit(c) then Some(c as int - '0' as int)
    else if 'a' <= c <= 'f' then Some(c as int - 'a' as int + 10)
    else if 'A' <= c <= 'F' then Some(c as int - 'A' as int + 10)
    else None
  }

  /** ReadUnicodePoint: the value of four hex digits at `i`. */
  function CodePoint(s: Text, i: nat): (r: Option<nat>)
    requires i + 4 <= |s|
    ensures r.Some? ==> r.value < 0x1_0000
  {
    var a, b, c, d := HexValue(s[i]), HexValue(s[i + 1]), HexValue(s[i + 2]), HexValue(s[i + 3]);
    if a.None? || b.None? || c.None? || d.None? then None
    else Some(((a.value * 16 + b.value) * 16 + c.value) * 16 + d.value)
  }

  /** The bytes ReadEscape stores for a 16-bit value: the shifts and masks of the
      source written as division and remainder by 64. */
  function Utf8(uc: nat): (r: string)
    requires uc < 0x1_0000
    ensures |r| == if uc < 0x80 then 1 else if uc < 0x800 then 2 else 3
  {
    if uc < 0x80 then [uc as char]
    else if uc < 0x800 then [(0xC0 + uc / 64) as char, (0x80 + uc % 64) as char]
    else [(0xE0 + uc / 4096) as char, (0x80 + uc / 64 % 64) as char, (0x80 + uc % 64) as char]
  }

  /** Reading one encoded value back by the bit layout of RFC 3629 section 3:
      0xxxxxxx, 110xxxxx 10xxxxxx, or 1110xxxx 10xxxxxx 10xxxxxx, shortest form
      only; the value and the number of bytes it took. */
  function Utf8Value(b: string): Option<(nat, nat)>
  {
    if |b| >= 1 && b[0] as int < 0x80 then Some((b[0] as int, 1))
    else if |b| >= 2 && 0xC0 <= b[0] as int < 0xE0 && Continuation(b[1]) then
      var v := (b[0] as int - 0xC0) * 64 + (b[1] as int - 0x80);
      if v >= 0x80 then Some((v, 2)) else None
    else if |b| >= 3 && 0xE0 <= b[0] as int < 0xF0 && Continuation(b[1]) && Continuation(b[2]) then
      var v := (b[0] as int - 0xE0) * 4096 + (b[1] as int - 0x80) * 64 + (b[2] as int - 0x80);
      if v >= 0x800 then Some((v, 3)) else None
    else None
  }

  predicate Continuation(c: char) { 0x80 <= c as int < 0xC0 }

  /** Every \uXXXX becomes the RFC 3629 encoding of its 16-bit value: decoding the
      bytes, whatever follows them, gives the value and consumes just them. */
  lemma Utf8RoundTrip(uc: nat, rest: string)
    requires uc < 0x1_0000
    ensures Utf8Value(Utf8(uc) + rest) == Some((uc, |Utf8(uc)|))
  {
    var b := Utf8(uc) + rest;
    assert b[0] == Utf8(uc)[0];
    if uc >= 0x80 { assert b[1] == Utf8(uc)[1]; }
    if uc >= 0x800 {
      assert b[2] == Utf8(uc)[2];
      assert uc / 64 == uc / 4096 * 64 + uc / 64 % 64;
    }
  }

  datatype Esc = BadEscape | Esc(bytes: string, len: nat)

  /** ReadEscape on the byte after a backslash; `len` is how far to move on. */
  function ReadEscape(s: Text, id: nat): (r: Esc)
    ensures r.Esc? ==> 1 <= |r.bytes| <= 3 && 1 <= r.len && id + r.len <= |s|
  {
    if id >= |s| then BadEscape
    else match s[id]
      case '"' => Esc("\"", 1)
      case '\\' => Esc("\\", 1)
      case '/' => Esc("/", 1)
      case 'b' => Esc([BACKSPACE], 1)
      case 'f' => Esc([FORMFEED], 1)
      case 'n' => Esc("\n", 1)
      case 'r' => Esc("\r", 1)
      case 't' => Esc("\t", 1)
      case 'u' =>
        if id + 4 >= |s| then BadEscape
        else
          (match CodePoint(s, id + 1)
           case None => BadEscape
           case Some(uc) => Esc(Utf8(uc), 5))
      case _ => BadEscape
  }

  // ---- strings and keys --------------------------------------------------

  /** The bytes of the string whose contents begin at `id`, up to its quote. */
  function Decode(s: Text, id: nat): Option<string>
    decreases |s| - id
  {
    if id >= |s| then None
    else if s[id] == '"' then Some("")
    else if s[id] == '\\' then
      match ReadEscape(s, id + 1)
      case BadEscape => None
      case Esc(bytes, len) => Prepend(bytes, Decode(s, id + 1 + len))
    else Prepend([s[id]], Decode(s, id + 1))
  }

  function Prepend(head: string, tail: Option<string>): Option<string>
  {
    if tail.None? then None else Some(head + tail.value)
  }

  function GetString(s: Text, id: nat): Option<string>
  {
    if id < |s| && s[id] == '"' then Decode(s, id + 1) else None
  }

  predicate IsTagChar(c: char) { IsWordNonBegin(c) || c == '.' }

  function TagEnd(s: Text, j: nat): (r: nat)
    requires j <= |s|
    ensures j <= r <= |s|
    decreases |s| - j
  {
    if j < |s| && IsTagChar(s[j]) then TagEnd(s, j + 1) else j
  }

  function GetKey(s: Text, id: nat): Option<string>
  {
    if id >= |s| then None
    else if s[id] == '"' then GetString(s, id)
    else if IsWordBegin(s[id]) then Some(s[id..TagEnd(s, id + 1)])
    else None
  }

  // ---- scalars -----------------------------------------------------------

  function TrimEnd(s: Text, lo: nat, hi: nat): (r: nat)
    requires lo <= hi <= |s|
    ensures lo <= r <= hi
  {
    if hi > lo && IsSpace(s[hi - 1]) then TrimEnd(s, lo, hi - 1) else hi
  }

  /** GetJSON: the text of the value at `id` without trailing spaces. */
  function GetJSON(s: Text, id: nat): Option<string>
  {
    var i := Skip(s, id);
    if id < i <= |s| then Some(s[id..TrimEnd(s, id, i)]) else None
  }

  function GetBool(s: Text, id: nat): Option<bool>
    requires id < |s|
  {
    if s[id] != 't' && s[id] != 'f' then None
    else
      var n := if s[id] == 't' then 3 else 4;
      if id + n + 1 < |s| && (IsNumChar(s[id + n + 1]) || IsAlpha(s[id + n + 1])) then None
      else if (id + 4 <= |s| && s[id..id + 4] == "true") then Some(true)
      else if (id + 5 <= |s| && s[id..id + 5] == "false") then Some(false)
      else None
  }

  // ---- the tree ----------------------------------------------------------

  datatype ReadError = EBADFORMAT | EPARSER | EINVAL

  datatype Read<+T> = Ok(value: T) | Err(error: ReadError)

  function ReadValue(s: Text, id: nat): Read<JSValue>
    decreases |s| - id, 0
  {
    if id >= |s| then Err(EBADFORMAT)
    else if s[id] == '"' then
      match GetString(s, id) case None => Err(EPARSER) case Some(text) => Ok(JString(text))
    else if s[id] == '[' then
      var st := EnumInit(s, id, '[');
      if st == ERROR then Err(EBADFORMAT)
      else match ReadItems(s, st) case Err(e) => Err(e) case Ok(values) => Ok(JArray(values))
    else if s[id] == '{' then
      var st := EnumInit(s, id, '{');
      if st == ERROR then Err(EBADFORMAT)
      else match ReadPairs(s, st) case Err(e) => Err(e) case Ok(pairs) => Ok(JObject(pairs))
    else if s[id] == 'n' then Ok(JNull)
    else if s[id] == 't' || s[id] == 'f' then
      match GetBool(s, id) case None => Err(EPARSER) case Some(b) => Ok(JBool(b))
    else if IsNumStart(s[id]) then
      match GetJSON(s, id) case None => Err(EPARSER) case Some(token) => Ok(JNumber(token))
    else Err(EINVAL)
  }

  /** ReadValue's object loop from enumeration state `st`: any failed ObjectNext
      ends the object without an error.  ObjectAdd copies a key as a C string. */
  function ReadPairs(s: Text, st: nat): Read<seq<JSPair>>
    decreases |s| - st, 1
  {
    var m := ObjectNext(s, st);
    if m.next >= |s| then Ok([])
    else match ReadValue(s, m.value)
      case Err(e) => Err(e)
      case Ok(v) =>
        match GetKey(s, m.key)
        case None => Err(EPARSER)
        case Some(key) =>
          match ReadPairs(s, m.next)
          case Err(e) => Err(e)
          case Ok(rest) => Ok([JSPair(CStr(key), v)] + rest)
  }

  function ReadItems(s: Text, st: nat): Read<seq<JSValue>>
    decreases |s| - st, 1
  {
    var e := ArrayNext(s, st);
    if e.next >= |s| then Ok([])
    else match ReadValue(s, e.value)
      case Err(e) => Err(e)
      case Ok(v) =>
        match ReadItems(s, e.next)
        case Err(e) => Err(e)
        case Ok(rest) => Ok([v] + rest)
  }
}
