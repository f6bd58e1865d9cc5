// JSON text as people write it: a tree with the spaces behind each token, an
// optional comma before each closer, strings spelled with any escapes, and keys
// quoted or bare.  This is what src/json/js.c accepts beyond the generator's own
// layout, stated without reference to the parser.
module JsonLayout {
  import opened JsonChars
  import opened JsonValue
  import opened JsonRead

  // ---- strings -----------------------------------------------------------

  /** One piece of a string's spelling: a byte as it stands, a two-byte escape, or
      \uXXXX with each of its four digits in either case. */
  datatype Piece = Raw(c: char) | Short(letter: char) | Hex(code: nat, upper: (bool, bool, bool, bool))

  predicate PieceOk(p: Piece)
  {
    match p
    case Raw(c) => c != '"' && c != '\\'
    case Short(l) => l == '"' || l == '\\' || l == '/' || l == 'b' || l == 'f' || l == 'n' || l == 'r' || l == 't'
    case Hex(code, _) => code < 0x1_0000
  }

  function HexDigit(v: nat, upper: bool): char
    requires v < 16
  {
    if v < 10 then ('0' as int + v) as char
    else if upper then ('A' as int + v - 10) as char
    else ('a' as int + v - 10) as char
  }

  function SpellPiece(p: Piece): string
    requires PieceOk(p)
  {
    match p
    case Raw(c) => [c]
    case Short(l) => ['\\', l]
    case Hex(code, u) =>
      ['\\', 'u', HexDigit(code / 4096, u.0), HexDigit(code / 256 % 16, u.1),
       HexDigit(code / 16 % 16, u.2), HexDigit(code % 16, u.3)]
  }

  /** The bytes it stands for. */
  function PieceBytes(p: Piece): string
    requires PieceOk(p)
  {
    match p
    case Raw(c) => [c]
    case Short('b') => [BACKSPACE]
    case Short('f') => [FORMFEED]
    case Short('n') => "\n"
    case Short('r') => "\r"
    case Short('t') => "\t"
    case Short(l) => [l]
    case Hex(code, _) => Utf8(code)
  }

  predicate PiecesOk(ps: seq<Piece>)
  {
    ps == [] || (PieceOk(ps[0]) && PiecesOk(ps[1..]))
  }

  function SpellPieces(ps: seq<Piece>): string
    requires PiecesOk(ps)
  {
    if ps == [] then "" else SpellPiece(ps[0]) + SpellPieces(ps[1..])
  }

  function Decoded(ps: seq<Piece>): string
    requires PiecesOk(ps)
  {
    if ps == [] then "" else PieceBytes(ps[0]) + Decoded(ps[1..])
  }

  function StringText(ps: seq<Piece>): string
    requires PiecesOk(ps)
  {
    "\"" + (SpellPieces(ps) + "\"")
  }

  // ---- documents ---------------------------------------------------------

  /** The spaces of section 2 of RFC 8259. */
  predicate Spaces(w: string)
  {
    forall k :: 0 <= k < |w| ==> w[k] == ' ' || w[k] == '\t' || w[k] == '\n' || w[k] == '\r'
  }

  datatype Key = Quoted(pieces: seq<Piece>) | Tag(name: string)

  datatype DocPair = DocPair(key: Key, afterKey: string, afterColon: string, value: Doc, afterComma: string)

  datatype DocItem = DocItem(value: Doc, afterComma: string)

  datatype Doc =
    | DObject(open: string, pairs: seq<DocPair>, comma: bool, close: string)
    | DArray(open: string, items: seq<DocItem>, comma: bool, close: string)
    | DNumber(token: string, after: string)
    | DString(pieces: seq<Piece>, after: string)
    | DBool(b: bool, after: string)
    | DNull(after: string)

  predicate KeyOk(key: Key)
  {
    match key
    case Quoted(ps) => PiecesOk(ps)
    case Tag(name) =>
      name != "" && IsTagBegin(name[0]) && forall k :: 1 <= k < |name| ==> IsWordNonBegin(name[k])
  }

  predicate DocOk(d: Doc)
  {
    match d
    case DObject(open, pairs, _, close) => Spaces(open) && Spaces(close) && DocPairsOk(pairs)
    case DArray(open, items, _, close) => Spaces(open) && Spaces(close) && DocItemsOk(items)
    case DNumber(token, after) => NumberToken(token) && Spaces(after)
    case DString(ps, after) => PiecesOk(ps) && Spaces(after)
    case DBool(_, after) => Spaces(after)
    case DNull(after) => Spaces(after)
  }

  predicate DocPairsOk(pairs: seq<DocPair>)
  {
    pairs == [] ||
    (var p := pairs[0];
     KeyOk(p.key) && Spaces(p.afterKey) && Spaces(p.afterColon) && DocOk(p.value) && Spaces(p.afterComma)
     && DocPairsOk(pairs[1..]))
  }

  predicate DocItemsOk(items: seq<DocItem>)
  {
    items == [] || (DocOk(items[0].value) && Spaces(items[0].afterComma) && DocItemsOk(items[1..]))
  }

  function KeyText(key: Key): string
    requires KeyOk(key)
  {
    match key case Quoted(ps) => StringText(ps) case Tag(name) => name
  }

  function KeyName(key: Key): string
    requires KeyOk(key)
  {
    match key case Quoted(ps) => Decoded(ps) case Tag(name) => name
  }

  function Comma(there: bool, after: string): string { if there then "," + after else "" }

  /** The token of a scalar, without the spaces behind it. */
  function Token(d: Doc): string
    requires DocOk(d) && !d.DObject? && !d.DArray?
  {
    match d
    case DNumber(token, _) => token
    case DString(ps, _) => StringText(ps)
    case DBool(b, _) => if b then "true" else "false"
    case DNull(_) => "null"
  }

  function Spell(d: Doc): string
    requires DocOk(d)
    decreases d, 1
  {
    match d
    case DObject(open, pairs, comma, close) => "{" + (open + SpellPairs(pairs, comma, close))
    case DArray(open, items, comma, close) => "[" + (open + SpellItems(items, comma, close))
    case _ => Token(d) + d.after
  }

  function SpellPairs(pairs: seq<DocPair>, comma: bool, close: string): string
    requires DocPairsOk(pairs)
    decreases pairs, 0
  {
    if pairs == [] then "}" + close
    else
      var p := pairs[0];
      KeyText(p.key) + (p.afterKey + (":" + (p.afterColon + (Spell(p.value)
        + (Comma(|pairs| > 1 || comma, p.afterComma) + SpellPairs(pairs[1..], comma, close))))))
  }

  function SpellItems(items: seq<DocItem>, comma: bool, close: string): string
    requires DocItemsOk(items)
    decreases items, 0
  {
    if items == [] then "]" + close
    else
      Spell(items[0].value)
      + (Comma(|items| > 1 || comma, items[0].afterComma) + SpellItems(items[1..], comma, close))
  }

  /** The tree a document stands for: keys are C strings. */
  function Tree(d: Doc): JSValue
    requires DocOk(d)
  {
    match d
    case DObject(_, pairs, _, _) => JObject(TreePairs(pairs))
    case DArray(_, items, _, _) => JArray(TreeItems(items))
    case DNumber(token, _) => JNumber(token)
    case DString(ps, _) => JString(Decoded(ps))
    case DBool(b, _) => JBool(b)
    case DNull(_) => JNull
  }

  function TreePairs(pairs: seq<DocPair>): (r: seq<JSPair>)
    requires DocPairsOk(pairs)
    ensures |r| == |pairs|
  {
    if pairs == [] then []
    else [JSPair(CStr(KeyName(pairs[0].key)), Tree(pairs[0].value))] + TreePairs(pairs[1..])
  }

  function TreeItems(items: seq<DocItem>): (r: seq<JSValue>)
    requires DocItemsOk(items)
    ensures |r| == |items|
  {
    if items == [] then [] else [Tree(items[0].value)] + TreeItems(items[1..])
  }

  // ---- the generator's own layout ----------------------------------------

  function PieceOf(c: char): (p: Piece)
    ensures PieceOk(p) && SpellPiece(p) == EscapeChar(c) && PieceBytes(p) == [c]
  {
    if |EscapeChar(c)| == 2 then Short(EscapeChar(c)[1]) else Raw(c)
  }

  function PiecesOf(text: string): (ps: seq<Piece>)
    ensures PiecesOk(ps) && SpellPieces(ps) == Escape(text) && Decoded(ps) == CStr(text)
  {
    if text == "" || text[0] == NUL then [] else [PieceOf(text[0])] + PiecesOf(text[1..])
  }

  function LayoutOf(t: JSValue): (d: Doc)
    requires NumbersOk(t)
    ensures DocOk(d)
  {
    match t
    case JObject(pairs) => DObject("", LayoutPairs(pairs), false, "")
    case JArray(values) => DArray("", LayoutItems(values), false, "")
    case JNumber(token) => DNumber(token, "")
    case JString(text) => DString(PiecesOf(text), "")
    case JBool(b) => DBool(b, "")
    case JNull => DNull("")
  }

  function LayoutPairs(pairs: seq<JSPair>): (r: seq<DocPair>)
    requires PairsOk(pairs)
    ensures DocPairsOk(r) && |r| == |pairs|
  {
    if pairs == [] then []
    else
      [DocPair(Quoted(PiecesOf(pairs[0].key)), "", " ", LayoutOf(pairs[0].value), " ")] + LayoutPairs(pairs[1..])
  }

  function LayoutItems(values: seq<JSValue>): (r: seq<DocItem>)
    requires ItemsOk(values)
    ensures DocItemsOk(r) && |r| == |values|
  {
    if values == [] then [] else [DocItem(LayoutOf(values[0]), " ")] + LayoutItems(values[1..])
  }

  lemma PairJoins(q: string, v: string, rest: string)
    ensures q + ("" + (":" + (" " + (v + rest)))) == q + (": " + (v + rest))
  {
    assert ":" + (" " + (v + rest)) == ": " + (v + rest);
  }

  lemma CommaJoins(rest: string)
    ensures Comma(true, " ") + rest == ", " + rest && Comma(false, " ") + rest == rest
  {
    assert "," + " " == ", ";
  }

  lemma LayoutPairsCons(pairs: seq<JSPair>)
    requires pairs != [] && PairsOk(pairs)
    ensures NumbersOk(pairs[0].value) && PairsOk(pairs[1..])
    ensures var l, p := LayoutPairs(pairs), pairs[0];
            && l[0] == DocPair(Quoted(PiecesOf(p.key)), "", " ", LayoutOf(p.value), " ")
            && l[1..] == LayoutPairs(pairs[1..])
  {
    hide LayoutOf, PiecesOf, NumbersOk;
  }

  lemma LayoutItemsCons(values: seq<JSValue>)
    requires values != [] && ItemsOk(values)
    ensures NumbersOk(values[0]) && ItemsOk(values[1..])
    ensures var l := LayoutItems(values);
            l[0] == DocItem(LayoutOf(values[0]), " ") && l[1..] == LayoutItems(values[1..])
  {
    hide LayoutOf, NumbersOk;
  }

  lemma SpellPairsCons(pairs: seq<DocPair>)
    requires pairs != [] && DocPairsOk(pairs)
    ensures var p := pairs[0];
            && KeyOk(p.key) && DocOk(p.value) && DocPairsOk(pairs[1..])
            && SpellPairs(pairs, false, "") == KeyText(p.key) + (p.afterKey + (":" + (p.afterColon + (Spell(p.value)
                 + (Comma(|pairs| > 1, p.afterComma) + SpellPairs(pairs[1..], false, ""))))))
            && TreePairs(pairs) == [JSPair(CStr(KeyName(p.key)), Tree(p.value))] + TreePairs(pairs[1..])
  {
    hide KeyText, Spell, Tree, Comma, KeyOk, DocOk, KeyName, CStr;
  }

  lemma SpellItemsCons(items: seq<DocItem>)
    requires items != [] && DocItemsOk(items)
    ensures var v := items[0].value;
            && DocOk(v) && DocItemsOk(items[1..])
            && SpellItems(items, false, "") ==
                 Spell(v) + (Comma(|items| > 1, items[0].afterComma) + SpellItems(items[1..], false, ""))
            && TreeItems(items) == [Tree(v)] + TreeItems(items[1..])
  {
    hide Spell, Tree, Comma, DocOk;
  }

  lemma QuotedKey(key: string)
    ensures KeyText(Quoted(PiecesOf(key))) == Quote(key) && KeyName(Quoted(PiecesOf(key))) == CStr(key)
  {
    hide PiecesOf, SpellPieces, Escape, Decoded;
  }

  /** A printed tree is a document in the generator's layout, and stands for the tree
      with its strings and keys cut at their first NUL. */
  lemma {:induction false} PrintedIsSpelled(t: JSValue)
    requires NumbersOk(t)
    ensures Spell(LayoutOf(t)) == Print(t) && Tree(LayoutOf(t)) == Cut(t)
    decreases t, 1
  {
    match t
    case JObject(pairs) =>
      PrintedPairsSpelled(pairs);
      assert "" + PrintPairs(pairs) == PrintPairs(pairs);
    case JArray(values) =>
      PrintedItemsSpelled(values);
      assert "" + PrintItems(values) == PrintItems(values);
    case JString(text) => assert Quote(text) + "" == Quote(text);
    case _ =>
  }

  lemma {:induction false} PrintedPairsSpelled(pairs: seq<JSPair>)
    requires PairsOk(pairs)
    ensures SpellPairs(LayoutPairs(pairs), false, "") == PrintPairs(pairs)
    ensures TreePairs(LayoutPairs(pairs)) == CutPairs(pairs)
    decreases pairs, 0
  {
    if pairs != [] {
      hide Spell, Tree, Print, Cut, LayoutOf, PiecesOf, LayoutPairs, SpellPairs, TreePairs, KeyText, KeyName,
           Quote, Comma, CStr, NumbersOk, PairsOk, DocOk, KeyOk;
      var p, rest := pairs[0], PrintPairs(pairs[1..]);
      LayoutPairsCons(pairs);
      PrintedIsSpelled(p.value);
      PrintedPairsSpelled(pairs[1..]);
      SpellPairsCons(LayoutPairs(pairs));
      QuotedKey(p.key);
      CStrTwice(p.key);
      CommaJoins(rest);
      if |pairs| == 1 { assert rest == "}"; }
      PairJoins(Quote(p.key), Print(p.value), AfterPair(pairs));
    }
  }

  lemma {:induction false} PrintedItemsSpelled(values: seq<JSValue>)
    requires ItemsOk(values)
    ensures SpellItems(LayoutItems(values), false, "") == PrintItems(values)
    ensures TreeItems(LayoutItems(values)) == CutItems(values)
    decreases values, 0
  {
    if values != [] {
      hide Spell, Tree, Print, Cut, LayoutOf, LayoutItems, SpellItems, TreeItems, Comma, NumbersOk, ItemsOk, DocOk;
      var rest := PrintItems(values[1..]);
      LayoutItemsCons(values);
      PrintedIsSpelled(values[0]);
      PrintedItemsSpelled(values[1..]);
      SpellItemsCons(LayoutItems(values));
      CommaJoins(rest);
      if |values| == 1 { assert rest == "]"; }
    }
  }
}
