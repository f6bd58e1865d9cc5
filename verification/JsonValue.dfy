// The JSON tree (src/json/json_tree.h) and the text it denotes.  The printer
// here places separators by structure; the generator's last-byte heuristic is
// proved to agree with it in JsonGen.
module JsonValue {
  import opened JsonChars

  datatype JSPair = JSPair(key: string, value: JSValue)

  datatype JSValue =
    | JObject(pairs: seq<JSPair>)
    | JArray(values: seq<JSValue>)
    | JNumber(token: string)
    | JString(text: string)
    | JBool(b: bool)
    | JNull

  /** A C string seen through its pointer: the bytes before the first NUL. */
  function CStr(text: string): (r: string)
    ensures |r| <= |text|
    ensures forall c :: c in r ==> c != NUL
  {
    if text == "" || text[0] == NUL then "" else [text[0]] + CStr(text[1..])
  }

  function EscapeChar(c: char): (r: string)
  {
    if c == '"' then "\\\""
    else if c == '\\' then "\\\\"
    else if c == BACKSPACE then "\\b"
    else if c == FORMFEED then "\\f"
    else if c == '\n' then "\\n"
    else if c == '\r' then "\\r"
    else if c == '\t' then "\\t"
    else [c]
  }

  /** The bytes PutString writes between the quotes. */
  function Escape(text: string): string
  {
    if text == "" || text[0] == NUL then "" else EscapeChar(text[0]) + Escape(text[1..])
  }

  function Quote(text: string): string
  {
    "\"" + (Escape(text) + "\"")
  }

  function Print(t: JSValue): string
  {
    match t
    case JObject(pairs) => "{" + PrintPairs(pairs)
    case JArray(values) => "[" + PrintItems(values)
    case JNumber(token) => token
    case JString(text) => Quote(text)
    case JBool(b) => if b then "true" else "false"
    case JNull => "null"
  }

  /** The members of an object, ", " between siblings, and the closing brace. */
  function PrintPairs(pairs: seq<JSPair>): string
    decreases pairs, 1
  {
    if pairs == [] then "}"
    else Quote(pairs[0].key) + (": " + (Print(pairs[0].value) + AfterPair(pairs)))
  }

  function AfterPair(pairs: seq<JSPair>): string
    requires pairs != []
    decreases pairs, 0
  {
    if |pairs| == 1 then "}" else ", " + PrintPairs(pairs[1..])
  }

  /** The elements of an array, ", " between siblings, and the closing bracket. */
  function PrintItems(values: seq<JSValue>): string
    decreases values, 1
  {
    if values == [] then "]" else Print(values[0]) + AfterItem(values)
  }

  function AfterItem(values: seq<JSValue>): string
    requires values != []
    decreases values, 0
  {
    if |values| == 1 then "]" else ", " + PrintItems(values[1..])
  }

  /** A token the parser's SkipWord takes as one number. */
  predicate NumberToken(w: string)
  {
    |w| > 0 && IsNumStart(w[0]) && forall k :: 1 <= k < |w| ==> IsWordNonBegin(w[k])
  }

  predicate NumbersOk(t: JSValue)
  {
    match t
    case JObject(pairs) => PairsOk(pairs)
    case JArray(values) => ItemsOk(values)
    case JNumber(token) => NumberToken(token)
    case _ => true
  }

  predicate PairsOk(pairs: seq<JSPair>)
  {
    pairs == [] || (NumbersOk(pairs[0].value) && PairsOk(pairs[1..]))
  }

  predicate ItemsOk(values: seq<JSValue>)
  {
    values == [] || (NumbersOk(values[0]) && ItemsOk(values[1..]))
  }

  /** Every string and key cut at its first NUL, as printing sees them. */
  function Cut(t: JSValue): JSValue
  {
    match t
    case JObject(pairs) => JObject(CutPairs(pairs))
    case JArray(values) => JArray(CutItems(values))
    case JString(text) => JString(CStr(text))
    case _ => t
  }

  function CutPairs(pairs: seq<JSPair>): seq<JSPair>
  {
    if pairs == [] then [] else [JSPair(CStr(pairs[0].key), Cut(pairs[0].value))] + CutPairs(pairs[1..])
  }

  function CutItems(values: seq<JSValue>): seq<JSValue>
  {
    if values == [] then [] else [Cut(values[0])] + CutItems(values[1..])
  }

  predicate NulFree(t: JSValue)
  {
    match t
    case JObject(pairs) => PairsNulFree(pairs)
    case JArray(values) => ItemsNulFree(values)
    case JString(text) => NUL !in text
    case _ => true
  }

  predicate PairsNulFree(pairs: seq<JSPair>)
  {
    pairs == [] || (NUL !in pairs[0].key && NulFree(pairs[0].value) && PairsNulFree(pairs[1..]))
  }

  predicate ItemsNulFree(values: seq<JSValue>)
  {
    values == [] || (NulFree(values[0]) && ItemsNulFree(values[1..]))
  }

  /** No string is cut; keys are left aside. */
  predicate StringsNulFree(t: JSValue)
  {
    match t
    case JObject(pairs) => PairStringsNulFree(pairs)
    case JArray(values) => ItemStringsNulFree(values)
    case JString(text) => NUL !in text
    case _ => true
  }

  predicate PairStringsNulFree(pairs: seq<JSPair>)
  {
    pairs == [] || (StringsNulFree(pairs[0].value) && PairStringsNulFree(pairs[1..]))
  }

  predicate ItemStringsNulFree(values: seq<JSValue>)
  {
    values == [] || (StringsNulFree(values[0]) && ItemStringsNulFree(values[1..]))
  }

  /** Every key is a C string, as the tree stores them. */
  predicate KeysNulFree(t: JSValue)
  {
    match t
    case JObject(pairs) => PairKeysNulFree(pairs)
    case JArray(values) => ItemKeysNulFree(values)
    case _ => true
  }

  predicate PairKeysNulFree(pairs: seq<JSPair>)
  {
    pairs == [] || (NUL !in pairs[0].key && KeysNulFree(pairs[0].value) && PairKeysNulFree(pairs[1..]))
  }

  predicate ItemKeysNulFree(values: seq<JSValue>)
  {
    values == [] || (KeysNulFree(values[0]) && ItemKeysNulFree(values[1..]))
  }

  lemma {:induction false} NulFreeSplits(t: JSValue)
    ensures NulFree(t) <==> StringsNulFree(t) && KeysNulFree(t)
    decreases t
  {
    match t
    case JObject(pairs) => PairsNulFreeSplits(pairs);
    case JArray(values) => ItemsNulFreeSplits(values);
    case _ =>
  }

  lemma {:induction false} PairsNulFreeSplits(pairs: seq<JSPair>)
    ensures PairsNulFree(pairs) <==> PairStringsNulFree(pairs) && PairKeysNulFree(pairs)
    decreases pairs
  {
    if pairs != [] {
      NulFreeSplits(pairs[0].value);
      PairsNulFreeSplits(pairs[1..]);
    }
  }

  lemma {:induction false} ItemsNulFreeSplits(values: seq<JSValue>)
    ensures ItemsNulFree(values) <==> ItemStringsNulFree(values) && ItemKeysNulFree(values)
    decreases values
  {
    if values != [] {
      NulFreeSplits(values[0]);
      ItemsNulFreeSplits(values[1..]);
    }
  }

  lemma {:induction false} CStrOfNulFree(text: string)
    ensures CStr(text) == text <==> NUL !in text
  {
    if text != "" && text[0] != NUL {
      CStrOfNulFree(text[1..]);
      assert text == [text[0]] + text[1..];
    }
  }

  lemma CStrTwice(text: string)
    ensures CStr(CStr(text)) == CStr(text)
  {
    CStrOfNulFree(CStr(text));
  }

  /** Cutting changes a tree exactly when some string or key holds a NUL. */
  lemma {:induction false} CutIsIdentity(t: JSValue)
    ensures Cut(t) == t <==> NulFree(t)
    decreases t
  {
    match t
    case JObject(pairs) => CutPairsIdentity(pairs);
    case JArray(values) => CutItemsIdentity(values);
    case JString(text) => CStrOfNulFree(text);
    case _ =>
  }

  lemma {:induction false} CutPairsIdentity(pairs: seq<JSPair>)
    ensures CutPairs(pairs) == pairs <==> PairsNulFree(pairs)
    decreases pairs
  {
    if pairs != [] {
      var p, rest := pairs[0], pairs[1..];
      CStrOfNulFree(p.key);
      CutIsIdentity(p.value);
      CutPairsIdentity(rest);
      assert CutPairs(pairs)[0] == JSPair(CStr(p.key), Cut(p.value));
      assert CutPairs(pairs)[1..] == CutPairs(rest);
      assert CutPairs(pairs) == pairs <==> JSPair(CStr(p.key), Cut(p.value)) == p && CutPairs(rest) == rest;
    }
  }

  lemma {:induction false} CutItemsIdentity(values: seq<JSValue>)
    ensures CutItems(values) == values <==> ItemsNulFree(values)
    decreases values
  {
    if values != [] {
      var v, rest := values[0], values[1..];
      CutIsIdentity(v);
      CutItemsIdentity(rest);
      assert CutItems(values)[0] == Cut(v);
      assert CutItems(values)[1..] == CutItems(rest);
      assert CutItems(values) == values <==> Cut(v) == v && CutItems(rest) == rest;
    }
  }

  lemma PrintStarts(t: JSValue)
    requires NumbersOk(t)
    ensures |Print(t)| > 0
    ensures var c := Print(t)[0]; !IsSpace(c) && !IsCloser(c) && c != ',' && c != ':'
  {
  }
}
