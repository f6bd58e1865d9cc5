// JSONParser_Lookup (src/json/js.c): the same dotted paths as PathGet, but over
// the text.  The two agree, whatever the text's layout, up to one slip in the key
// compare.
module JsonLookup {
  import opened Common
  import opened JsonChars
  import opened JsonValue
  import opened JsonScan
  import opened JsonRead
  import opened JsonPath
  import opened JsonLayout
  import opened JsonSkip
  import opened JsonRoundTrip

  // ---- the functions -----------------------------------------------------

  /** JSONParser_StrCmp from text offset `id` and key offset `k`: the key is `p`
      up to `nLen`, or up to a '.'. */
  predicate StrCmp(s: Text, id: nat, p: string, k: nat, nLen: nat)
    requires k <= nLen <= |p|
    decreases |s| - id
  {
    if id < |s| && s[id] != '"' && k < nLen && p[k] != '.' then
      if s[id] == '\\' then
        match ReadEscape(s, id + 1)
        case BadEscape => false
        case Esc(bytes, len) =>
          k + |bytes| < nLen && p[k..k + |bytes|] == bytes
          && StrCmp(s, id + 1 + len, p, k + |bytes|, nLen)
      else s[id] == p[k] && StrCmp(s, id + 1, p, k + 1, nLen)
    else id < |s| && s[id] == '"' && (k == |p| || p[k] == '.')
  }

  /** JSONParser_ObjectLookup's loop from state `st`. */
  function FindKey(s: Text, st: nat, p: string, nLen: nat): Option<nat>
    requires nLen <= |p|
    decreases |s| - st
  {
    var m := ObjectNext(s, st);
    if m.next >= |s| then None
    else if StrCmp(s, m.key + 1, p, 0, nLen) then Some(m.value)
    else FindKey(s, m.next, p, nLen)
  }

  /** JSONParser_ArrayLookup's loop from state `st`. */
  function FindNth(s: Text, st: nat, n: nat): Option<nat>
    decreases |s| - st
  {
    var e := ArrayNext(s, st);
    if e.next >= |s| then None
    else if n == 0 then Some(e.value)
    else FindNth(s, e.next, n - 1)
  }

  /** Offset 0 stands for the text's value, behind any spaces. */
  function ValueStart(s: Text, id: nat): nat { if id == 0 then SpaceEnd(s, 0) else id }

  /** JSONParser_LookupSegment with the path `p` whose first segment is wanted. */
  function FindSegment(s: Text, id: nat, p: string): Option<nat>
  {
    var start := ValueStart(s, id);
    if start >= |s| then None
    else if s[start] == '[' then
      var st := EnumInit(s, start, '[');
      var index := Uint(Seg(p), 0);
      if index.None? || st == ERROR then None else FindNth(s, st, index.value)
    else if s[start] == '{' then
      var st := EnumInit(s, start, '{');
      if st == ERROR then None else FindKey(s, st, p, if SegLen(p) == 0 then |p| else SegLen(p))
    else None
  }

  function Lookup(s: Text, id: nat, p: string): Option<nat>
    decreases |p|
  {
    match FindSegment(s, id, p)
    case None => None
    case Some(j) => if More(p) && Rest(p) != "" then Lookup(s, j, Rest(p)) else Some(j)
  }

  // ---- paths -------------------------------------------------------------

  /** A NUL-free path of non-empty segments whose indices are non-negative ints. */
  predicate PathOk(p: string)
    decreases |p|
  {
    && NUL !in p && SegLen(p) > 0 && IndexFits(Seg(p))
    && (More(p) ==> PathOk(Rest(p)))
  }

  predicate EndsEscaped(seg: string)
  {
    seg != "" && |EscapeChar(seg[|seg| - 1])| == 2
  }

  /** No segment ends in a byte the generator escapes. */
  predicate SegsPlain(p: string)
    decreases |p|
  {
    !EndsEscaped(Seg(p)) && (More(p) ==> SegsPlain(Rest(p)))
  }

  // ---- comparing a key ---------------------------------------------------

  predicate EndsInEscape(ps: seq<Piece>)
  {
    ps != [] && !ps[|ps| - 1].Raw?
  }

  /** A quoted key, however it is spelled, compares equal to the segment exactly when
      it decodes to the segment and its last piece is no escape: the source gives up
      on an escape that would reach the segment's end. */
  lemma {:induction false} CompareKey(s: Text, j: nat, ps: seq<Piece>, p: string, k: nat)
    requires PiecesOk(ps) && At(s, j, SpellPieces(ps) + "\"") && k <= SegLen(p)
    ensures StrCmp(s, j, p, k, SegLen(p)) <==> Decoded(ps) == p[k..SegLen(p)] && !EndsInEscape(ps)
    decreases |ps|
  {
    hide SpellPiece, PieceBytes, StrCmp, EndsInEscape, PieceOk, SegLen, SpellPieces;
    if ps == [] {
      CompareAtEnd(s, j, p, k);
    } else {
      var e, rest := SpellPiece(ps[0]), SpellPieces(ps[1..]) + "\"";
      SpellCons(ps);
      AtConcat(s, j, e, rest);
      var n := |PieceBytes(ps[0])|;
      if k + n <= SegLen(p) { CompareKey(s, j + |e|, ps[1..], p, k + n); }
      NothingDecoded(ps[1..]);
      EndsLater(ps);
      EndsOfNothing();
      ComparePiece(s, j, ps[0], p, k);
      MatchConcat(PieceBytes(ps[0]), Decoded(ps[1..]), p, k, SegLen(p));
    }
  }

  /** Comparing one piece, then the rest. */
  lemma ComparePiece(s: Text, j: nat, q: Piece, p: string, k: nat)
    requires PieceOk(q) && At(s, j, SpellPiece(q)) && k <= SegLen(p)
    ensures var b, n := PieceBytes(q), SegLen(p);
            && |b| > 0
            && (StrCmp(s, j, p, k, n) <==>
                  && k + |b| <= n && (k + |b| == n ==> q.Raw?) && p[k..k + |b|] == b
                  && StrCmp(s, j + |SpellPiece(q)|, p, k + |b|, n))
  {
    hide CodePoint, HexDigit, Utf8, SegLen, ReadEscape;
    var n := SegLen(p);
    FirstByte(s, j, SpellPiece(q));
    assert k < n ==> p[k] in p[..n];
    if q.Raw? {
      if k < n { assert p[k..k + 1] == [p[k]]; }
    } else {
      EscapeOfPiece(s, j, q);
      PieceNotEmpty(q);
    }
  }

  lemma PieceNotEmpty(q: Piece)
    requires PieceOk(q)
    ensures PieceBytes(q) != ""
  {
  }

  lemma MatchConcat(b: string, r: string, p: string, k: nat, n: nat)
    requires k <= n <= |p|
    ensures b + r == p[k..n] <==> k + |b| <= n && p[k..k + |b|] == b && p[k + |b|..n] == r
  {
    var q := p[k..n];
    if k + |b| <= n { assert q == p[k..k + |b|] + p[k + |b|..n]; }
    if b + r == q {
      assert q[..|b|] == b && q[|b|..] == r;
      assert q[..|b|] == p[k..k + |b|] && q[|b|..] == p[k + |b|..n];
    }
  }

  lemma CompareAtEnd(s: Text, j: nat, p: string, k: nat)
    requires At(s, j, SpellPieces([]) + "\"") && k <= SegLen(p)
    ensures StrCmp(s, j, p, k, SegLen(p)) <==> "" == p[k..SegLen(p)]
    ensures !EndsInEscape([])
  {
    QuoteAt(s, j);
    assert k < SegLen(p) ==> p[k] in p[..SegLen(p)];
  }

  lemma EndsLater(ps: seq<Piece>)
    requires ps != []
    ensures EndsInEscape(ps) <==> if |ps| == 1 then !ps[0].Raw? else EndsInEscape(ps[1..])
  {
  }

  lemma EndsOfNothing()
    ensures !EndsInEscape([]) && !EndsEscaped("")
  {
  }

  lemma NothingDecoded(ps: seq<Piece>)
    requires PiecesOk(ps)
    ensures Decoded(ps) == "" <==> ps == []
  {
    hide PieceBytes;
    if ps != [] { PieceNotEmpty(ps[0]); }
  }

  // ---- documents ---------------------------------------------------------

  /** The key is quoted and holds no NUL, and its last byte is written as an escape
      exactly if the generator writes it as one; any other byte may be. */
  predicate KeyRegular(key: Key)
  {
    && key.Quoted? && PiecesOk(key.pieces) && NUL !in Decoded(key.pieces)
    && (EndsInEscape(key.pieces) <==> EndsEscaped(Decoded(key.pieces)))
  }

  predicate KeysRegular(d: Doc)
  {
    match d
    case DObject(_, pairs, _, _) => PairKeysRegular(pairs)
    case DArray(_, items, _, _) => ItemKeysRegular(items)
    case _ => true
  }

  predicate PairKeysRegular(pairs: seq<DocPair>)
  {
    pairs == [] || (KeyRegular(pairs[0].key) && KeysRegular(pairs[0].value) && PairKeysRegular(pairs[1..]))
  }

  predicate ItemKeysRegular(items: seq<DocItem>)
  {
    items == [] || (KeysRegular(items[0].value) && ItemKeysRegular(items[1..]))
  }

  /** At `id` stands, in some layout, a value that is `t`, with regular keys. */
  ghost predicate Stands(s: Text, id: nat, t: JSValue)
  {
    exists d :: StandsAs(s, id, t, d)
  }

  ghost predicate StandsAs(s: Text, id: nat, t: JSValue, d: Doc)
  {
    Placed(s, ValueStart(s, id), d) && KeysRegular(d) && Tree(d) == t
  }

  // ---- one container -----------------------------------------------------

  /** A regular key of a member compares equal to a segment exactly when it is the
      segment, unless that ends in a byte the generator escapes. */
  lemma CompareMember(s: Text, i: nat, q: DocPair, p: string)
    requires KeyOk(q.key) && DocOk(q.value) && PairStands(s, i, q) && KeyRegular(q.key)
    ensures StrCmp(s, i + 1, p, 0, SegLen(p)) <==> CStr(KeyName(q.key)) == Seg(p) && !EndsEscaped(Seg(p))
  {
    hide EndsEscaped, EndsInEscape, StrCmp, At, Spell, DocOk, SpellPieces, Decoded, PiecesOk, SegLen;
    var ps := q.key.pieces;
    AtConcat(s, i, "\"", SpellPieces(ps) + "\"");
    CompareKey(s, i + 1, ps, p, 0);
    CStrOfNulFree(Decoded(ps));
  }

  lemma StandsPlaced(s: Text, i: nat, d: Doc)
    requires DocOk(d) && Placed(s, i, d) && KeysRegular(d) && i > 0
    ensures Stands(s, i, Tree(d))
  {
    hide Placed, KeysRegular, Tree;
    assert StandsAs(s, i, Tree(d), d);
  }

  lemma KeysCons(pairs: seq<DocPair>)
    requires pairs != [] && PairKeysRegular(pairs)
    ensures KeyRegular(pairs[0].key) && KeysRegular(pairs[0].value) && PairKeysRegular(pairs[1..])
  {
  }

  lemma ItemKeysCons(items: seq<DocItem>)
    requires items != [] && ItemKeysRegular(items)
    ensures KeysRegular(items[0].value) && ItemKeysRegular(items[1..])
  {
  }

  lemma FindKeyCons(s: Text, i: nat, p: string)
    ensures var m := ObjectNext(s, i);
            FindKey(s, i, p, SegLen(p)) ==
              if m.next >= |s| then None
              else if StrCmp(s, m.key + 1, p, 0, SegLen(p)) then Some(m.value)
              else FindKey(s, m.next, p, SegLen(p))
  {
    hide ObjectNext, StrCmp, SegLen;
  }

  lemma {:induction false} FirstMatchCons(pair: JSPair, rest: seq<JSPair>, key: string)
    ensures FirstMatch([pair] + rest, key) ==
              if CStr(pair.key) == key then Some(0)
              else if FirstMatch(rest, key).Some? then Some(FirstMatch(rest, key).value + 1)
              else None
  {
    hide CStr;
    assert ([pair] + rest)[1..] == rest;
  }

  /** The object loop over members in any layout finds the first match of the
      segment, at an offset where its value stands. */
  lemma {:induction false} FindSpelledKey(s: Text, i: nat, pairs: seq<DocPair>, comma: bool, close: string, p: string)
    requires DocPairsOk(pairs) && PairKeysRegular(pairs) && At(s, i, SpellPairs(pairs, comma, close))
    ensures var found, hit := FindKey(s, i, p, SegLen(p)), FirstMatch(TreePairs(pairs), Seg(p));
            && (found.Some? <==> hit.Some? && !EndsEscaped(Seg(p)))
            && (found.Some? ==> i < found.value && Stands(s, found.value, TreePairs(pairs)[hit.value].value))
    decreases pairs
  {
    hide *;
    if pairs == [] {
      FindInNone(s, i, comma, close, p);
    } else {
      var q, m := pairs[0], ObjectNext(s, i);
      KeysCons(pairs);
      HeadOk(pairs);
      NextMember(s, i, pairs, comma, close);
      CompareMember(s, i, q, p);
      FindKeyCons(s, i, p);
      FindSpelledKey(s, m.next, pairs[1..], comma, close, p);
      TreePairsCons(pairs);
      CStrTwice(KeyName(q.key));
      FirstMatchCons(JSPair(CStr(KeyName(q.key)), Tree(q.value)), TreePairs(pairs[1..]), Seg(p));
      StandsPlaced(s, m.value, q.value);
    }
  }

  lemma FindInNone(s: Text, i: nat, comma: bool, close: string, p: string)
    requires At(s, i, SpellPairs([], comma, close))
    ensures FindKey(s, i, p, SegLen(p)) == None && FirstMatch(TreePairs([]), Seg(p)) == None
  {
    hide ObjectNext, StrCmp, SegLen;
    PairsStart(s, i, [], comma, close);
    NoMember(s, i);
  }

  lemma FindNthCons(s: Text, i: nat, n: nat)
    ensures var e := ArrayNext(s, i);
            FindNth(s, i, n) ==
              if e.next >= |s| then None
              else if n == 0 then Some(e.value)
              else FindNth(s, e.next, n - 1)
  {
    hide ArrayNext;
  }

  lemma FindNthInNone(s: Text, i: nat, comma: bool, close: string, n: nat)
    requires At(s, i, SpellItems([], comma, close))
    ensures FindNth(s, i, n) == None
  {
    hide ArrayNext;
    ItemsStart(s, i, [], comma, close);
    NoElement(s, i);
  }

  lemma {:induction false} FindSpelledNth(s: Text, i: nat, items: seq<DocItem>, comma: bool, close: string, n: nat)
    requires DocItemsOk(items) && ItemKeysRegular(items) && At(s, i, SpellItems(items, comma, close)) && i > 0
    ensures var found := FindNth(s, i, n);
            && (found.Some? <==> n < |items|)
            && (found.Some? ==> i <= found.value && Stands(s, found.value, TreeItems(items)[n]))
    decreases items
  {
    hide *;
    if items == [] {
      FindNthInNone(s, i, comma, close, n);
    } else {
      var e := ArrayNext(s, i);
      ItemKeysCons(items);
      ItemHeadOk(items);
      NextElement(s, i, items, comma, close);
      FindNthCons(s, i, n);
      TreeItemsCons(items);
      StandsPlaced(s, i, items[0].value);
      if n > 0 { FindSpelledNth(s, e.next, items[1..], comma, close, n - 1); }
    }
  }

  lemma IndexEndsPlain(seg: string)
    requires seg != "" && Uint(seg, 0).Some?
    ensures !EndsEscaped(seg)
  {
    IndexIsDecimal(seg);
    assert IsDigit(seg[|seg| - 1]);
  }

  lemma SegmentInObject(s: Text, id: nat, p: string)
    requires var i := ValueStart(s, id); i < |s| && s[i] == '{' && EnumInit(s, i, '{') < |s|
    requires SegLen(p) > 0
    ensures FindSegment(s, id, p) == FindKey(s, EnumInit(s, ValueStart(s, id), '{'), p, SegLen(p))
  {
    hide EnumInit, FindKey, FindNth, Seg, SegLen;
  }

  lemma SegmentInArray(s: Text, id: nat, p: string)
    requires var i := ValueStart(s, id); i < |s| && s[i] == '[' && EnumInit(s, i, '[') < |s|
    ensures var index := Uint(Seg(p), 0);
            FindSegment(s, id, p) ==
              if index.None? then None else FindNth(s, EnumInit(s, ValueStart(s, id), '['), index.value)
  {
    hide EnumInit, FindKey, FindNth, Seg, Uint;
  }

  lemma FindInObject(s: Text, id: nat, d: Doc, p: string)
    requires Placed(s, ValueStart(s, id), d) && KeysRegular(d) && d.DObject? && SegLen(p) > 0
    ensures var found, hit := FindSegment(s, id, p), FirstMatch(TreePairs(d.pairs), Seg(p));
            && (found.Some? <==> hit.Some? && !EndsEscaped(Seg(p)))
            && (found.Some? ==> 0 < found.value && Stands(s, found.value, TreePairs(d.pairs)[hit.value].value))
  {
    hide Skip, EndsEscaped, FindSegment, FindKey, FirstMatch, EnumInit, Ends, SpellPairs, Spaces, At, Seg,
         SegLen, Stands, TreePairs, ValueStart;
    var i := ValueStart(s, id);
    OpenerAt(s, i, '{', d.open, SpellPairs(d.pairs, d.comma, d.close));
    var st := i + 1 + |d.open|;
    PairsStart(s, st, d.pairs, d.comma, d.close);
    EnumInitAt(s, i, '{', d.open);
    SegmentInObject(s, id, p);
    FindSpelledKey(s, st, d.pairs, d.comma, d.close, p);
  }

  lemma FindInArray(s: Text, id: nat, d: Doc, p: string)
    requires Placed(s, ValueStart(s, id), d) && KeysRegular(d) && d.DArray? && SegLen(p) > 0
    ensures var found, index := FindSegment(s, id, p), Uint(Seg(p), 0);
            && (found.Some? <==> index.Some? && index.value < |d.items|)
            && (found.Some? ==> 0 < found.value && Stands(s, found.value, TreeItems(d.items)[index.value]))
            && (index.Some? ==> !EndsEscaped(Seg(p)))
  {
    hide Skip, EndsEscaped, FindSegment, FindNth, Uint, EnumInit, Ends, SpellItems, Spaces, At, SegLen, Stands,
         TreeItems, ValueStart;
    var i := ValueStart(s, id);
    OpenerAt(s, i, '[', d.open, SpellItems(d.items, d.comma, d.close));
    var st := i + 1 + |d.open|;
    ItemsStart(s, st, d.items, d.comma, d.close);
    EnumInitAt(s, i, '[', d.open);
    SegmentInArray(s, id, p);
    var index := Uint(Seg(p), 0);
    if index.Some? {
      FindSpelledNth(s, st, d.items, d.comma, d.close, index.value);
      IndexEndsPlain(Seg(p));
    }
  }

  lemma FindInScalar(s: Text, id: nat, d: Doc, p: string)
    requires Placed(s, ValueStart(s, id), d) && !d.DObject? && !d.DArray?
    ensures FindSegment(s, id, p) == None
  {
    hide At, Ends, SpellPieces, FindKey, FindNth;
    AtConcat(s, ValueStart(s, id), Token(d), d.after);
    FirstByte(s, ValueStart(s, id), Token(d));
  }

  /** LookupSegment over the text of a value against LookupSegment over the value. */
  lemma FindSpelledSegment(s: Text, id: nat, t: JSValue, p: string)
    requires Stands(s, id, t) && PathOk(p)
    ensures var found, hit := FindSegment(s, id, p), LookupSegment(t, Seg(p));
            && (found.Some? <==> hit.Hit? && !EndsEscaped(Seg(p)))
            && (found.Some? ==> 0 < found.value && Stands(s, found.value, Child(t, hit.k)))
  {
    hide Skip, EndsEscaped, FindKey, FindNth, FindSegment, Stands, Placed, FirstMatch, TreePairs, TreeItems, Uint;
    var d := DocStanding(s, id, t);
    match d
    case DObject(_, pairs, _, _) => FindInObject(s, id, d, p);
    case DArray(_, items, _, _) => FindInArray(s, id, d, p);
    case _ => FindInScalar(s, id, d, p);
  }

  ghost function DocStanding(s: Text, id: nat, t: JSValue): (d: Doc)
    requires Stands(s, id, t)
    ensures Placed(s, ValueStart(s, id), d) && KeysRegular(d) && Tree(d) == t
  {
    var d :| StandsAs(s, id, t, d);
    d
  }

  // ---- the agreement -----------------------------------------------------

  /** For every value in any layout, embedded anywhere, whose keys are regular, and
      every path of non-empty segments: looking the path up in the text succeeds
      exactly when PathGet does and no segment ends in an escaped byte; and at the
      offset found stands PathGet's node.  Among duplicate keys the first wins in
      both. */
  lemma {:induction false} LookupAgrees(s: Text, id: nat, t: JSValue, p: string)
    requires Stands(s, id, t) && PathOk(p)
    ensures var found, got := Lookup(s, id, p), PathGet(t, p);
            && (found.Some? ==> got.Some? && 0 < found.value && Stands(s, found.value, got.value))
            && (found.Some? <==> got.Some? && SegsPlain(p))
    decreases |p|
  {
    hide EndsEscaped, FindSegment, LookupSegment, Stands;
    FindSpelledSegment(s, id, t, p);
    var found := FindSegment(s, id, p);
    if found.Some? && More(p) {
      LookupAgrees(s, found.value, Child(t, LookupSegment(t, Seg(p)).k), Rest(p));
    }
  }

  /** ... hence ReadValue at that offset reads PathGet's node. */
  lemma LookupThenRead(s: Text, id: nat, t: JSValue, p: string)
    requires Stands(s, id, t) && PathOk(p) && PathGet(t, p).Some? && SegsPlain(p)
    ensures Lookup(s, id, p).Some?
    ensures ReadValue(s, Lookup(s, id, p).value) == Ok(PathGet(t, p).value)
  {
    hide Lookup, PathGet, ReadValue, SegsPlain, PathOk, Placed, Tree, KeysRegular, Stands;
    LookupAgrees(s, id, t, p);
    var j := Lookup(s, id, p).value;
    ReadSpelled(s, j, DocStanding(s, j, PathGet(t, p).value));
  }

  // ---- whole texts and printed trees -------------------------------------

  lemma {:induction false} PiecesOfRegular(text: string)
    ensures EndsInEscape(PiecesOf(text)) <==> EndsEscaped(CStr(text))
  {
    hide EscapeChar, PieceOf, EndsInEscape, EndsEscaped;
    if text != "" && text[0] != NUL {
      var ps, r := PiecesOf(text), CStr(text[1..]);
      assert ps[1..] == PiecesOf(text[1..]);
      PiecesOfRegular(text[1..]);
      EndsLater(ps);
      NothingDecoded(ps[1..]);
      EndsEscapedLater(text[0], r);
      PieceOfRaw(text[0]);
    } else {
      EndsOfNothing();
    }
  }

  lemma PieceOfRaw(c: char)
    ensures PieceOf(c).Raw? <==> |EscapeChar(c)| == 1
  {
  }

  lemma EndsEscapedLater(c: char, rest: string)
    ensures EndsEscaped([c] + rest) <==> if rest == "" then |EscapeChar(c)| != 1 else EndsEscaped(rest)
  {
  }

  lemma {:induction false} LayoutKeys(t: JSValue)
    requires NumbersOk(t)
    ensures KeysRegular(LayoutOf(t))
    decreases t, 1
  {
    match t
    case JObject(pairs) => LayoutPairKeys(pairs);
    case JArray(values) => LayoutItemKeys(values);
    case _ =>
  }

  lemma {:induction false} LayoutPairKeys(pairs: seq<JSPair>)
    requires PairsOk(pairs)
    ensures PairKeysRegular(LayoutPairs(pairs))
    decreases pairs, 0
  {
    hide PiecesOf, LayoutOf, KeysRegular;
    if pairs != [] {
      LayoutKeys(pairs[0].value);
      LayoutPairKeys(pairs[1..]);
      PiecesOfRegular(pairs[0].key);
      assert LayoutPairs(pairs)[1..] == LayoutPairs(pairs[1..]);
    }
  }

  lemma {:induction false} LayoutItemKeys(values: seq<JSValue>)
    requires ItemsOk(values)
    ensures ItemKeysRegular(LayoutItems(values))
    decreases values, 0
  {
    hide LayoutOf, KeysRegular;
    if values != [] {
      LayoutKeys(values[0]);
      LayoutItemKeys(values[1..]);
      assert LayoutItems(values)[1..] == LayoutItems(values[1..]);
    }
  }

  /** A printed value stands where it is printed, behind any leading spaces if that is
      the start of the text. */
  lemma PrintedStands(s: Text, id: nat, t: JSValue)
    requires NumbersOk(t) && At(s, ValueStart(s, id), Print(t)) && Ends(s, ValueStart(s, id) + |Print(t)|)
    ensures Stands(s, id, Cut(t))
  {
    hide Print, Placed, KeysRegular, LayoutOf, Tree, Cut, Spell;
    PlacedPrinted(s, ValueStart(s, id), t);
    LayoutKeys(t);
    assert StandsAs(s, id, Cut(t), LayoutOf(t));
  }

  /** Over a printed tree: paths are found just as in the tree itself. */
  lemma LookupPrinted(s: Text, id: nat, t: JSValue, p: string)
    requires NumbersOk(t) && At(s, ValueStart(s, id), Print(t)) && Ends(s, ValueStart(s, id) + |Print(t)|)
    requires PathOk(p)
    ensures var found, got := Lookup(s, id, p), PathGet(t, p);
            && (found.Some? <==> got.Some? && SegsPlain(p))
            && (found.Some? ==> ReadValue(s, found.value) == Ok(Cut(got.value)))
  {
    hide Lookup, PathGet, ReadValue, Print, NumbersOk, Cut, SegsPlain, PathOk, Stands, At;
    PrintedStands(s, id, t);
    CutPathGet(t, p);
    LookupAgrees(s, id, Cut(t), p);
    if Lookup(s, id, p).Some? { LookupThenRead(s, id, Cut(t), p); }
  }

  lemma {:induction false} CutMatch(pairs: seq<JSPair>, key: string)
    ensures FirstMatch(CutPairs(pairs), key) == FirstMatch(pairs, key)
    ensures |CutPairs(pairs)| == |pairs|
  {
    hide CStr, Cut;
    if pairs != [] {
      CStrTwice(pairs[0].key);
      CutMatch(pairs[1..], key);
      FirstMatchCons(JSPair(CStr(pairs[0].key), Cut(pairs[0].value)), CutPairs(pairs[1..]), key);
    }
  }

  lemma {:induction false} CutPairAt(pairs: seq<JSPair>, k: nat)
    requires k < |pairs|
    ensures |CutPairs(pairs)| == |pairs| && CutPairs(pairs)[k].value == Cut(pairs[k].value)
  {
    hide CStr, Cut;
    if k > 0 { CutPairAt(pairs[1..], k - 1); } else if |pairs| > 1 { CutPairAt(pairs[1..], 0); }
  }

  lemma {:induction false} CutItemAt(values: seq<JSValue>, k: nat)
    requires k < |values|
    ensures |CutItems(values)| == |values| && CutItems(values)[k] == Cut(values[k])
  {
    hide Cut;
    if k > 0 { CutItemAt(values[1..], k - 1); } else if |values| > 1 { CutItemAt(values[1..], 0); }
  }

  lemma CutSegment(t: JSValue, seg: string)
    ensures LookupSegment(Cut(t), seg) == LookupSegment(t, seg)
    ensures var r := LookupSegment(t, seg); r.Hit? ==> Child(Cut(t), r.k) == Cut(Child(t, r.k))
  {
    hide FirstMatch, CutPairs, CutItems, Index, IndexFits;
    var r := LookupSegment(t, seg);
    match t
    case JObject(pairs) =>
      CutMatch(pairs, seg);
      if r.Hit? { CutPairAt(pairs, r.k); }
    case JArray(values) =>
      if values == [] { assert CutItems(values) == [] by { NoCutItems(); } } else { CutItemAt(values, 0); }
      if r.Hit? { CutItemAt(values, r.k); }
    case _ =>
  }

  lemma NoCutItems()
    ensures CutItems([]) == []
  {
  }

  lemma {:induction false} CutPathGet(t: JSValue, p: string)
    ensures PathGet(Cut(t), p).Some? <==> PathGet(t, p).Some?
    ensures PathGet(t, p).Some? ==> PathGet(Cut(t), p).value == Cut(PathGet(t, p).value)
    decreases |p|
  {
    hide LookupSegment, Cut, Seg;
    CutSegment(t, Seg(p));
    var r := LookupSegment(t, Seg(p));
    if r.Hit? && More(p) { CutPathGet(Child(t, r.k), Rest(p)); }
  }

  /** A key that ends in a quote: the tree lookup finds it, the text lookup does
      not. */
  lemma QuoteEndingKeyMissed()
    ensures var t := JObject([JSPair("a\"", JNull)]);
            && PathGet(t, "a\"") == Some(JNull)
            && Lookup(Print(t), 0, "a\"") == None
  {
    var t, p := JObject([JSPair("a\"", JNull)]), "a\"";
    assert p[1..] == "\"" && p[1..][1..] == "";
    assert SegLen(p) == 2 && Seg(p) == p;
    assert CStr(p) == p by { CStrOfNulFree(p); }
    assert IndexFits(p);
    assert |Print(t)| < 0x8000_0000 && At(Print(t), 0, Print(t));
    LookupPrinted(Print(t), 0, t, p);
  }

  /** A bare key is read into the tree, but the text lookup takes its first byte for
      a quote and does not find it. */
  lemma BareKeyMissed()
    ensures var t := JObject([JSPair("ab", JNull)]);
            && ReadValue("{ab:null}", 0) == Ok(t)
            && PathGet(t, "ab") == Some(JNull) && Lookup("{ab:null}", 0, "ab") == None
  {
    hide Spell, Tree, ReadValue, PathGet, Lookup, DocOk;
    var s: Text := "{ab:null}";
    var d := DObject("", BarePairs, false, "");
    BareDoc();
    ReadText("", d);
    assert "" + Spell(d) == s;
    FindBare();
    BareInTree();
  }

  lemma BareInTree()
    ensures PathGet(JObject([JSPair("ab", JNull)]), "ab") == Some(JNull)
  {
    SegOfDotless("ab");
    CStrOfNulFree("ab");
  }

  const BarePairs: seq<DocPair> := [DocPair(Tag("ab"), "", "", DNull(""), "")]

  lemma BareText()
    ensures DocPairsOk(BarePairs) && SpellPairs(BarePairs, false, "") == "ab:null}"
  {
    assert BarePairs[1..] == [];
    assert Spell(DNull("")) == "null";
  }

  lemma BareTree()
    ensures DocPairsOk(BarePairs) && TreePairs(BarePairs) == [JSPair("ab", JNull)]
  {
    hide SpellPairs;
    BareText();
    assert BarePairs[1..] == [];
    CStrOfNulFree("ab");
  }

  lemma BareDoc()
    ensures var d := DObject("", BarePairs, false, "");
            DocOk(d) && Spell(d) == "{ab:null}" && Tree(d) == JObject([JSPair("ab", JNull)])
  {
    hide SpellPairs, TreePairs, DocPairsOk;
    BareText();
    BareTree();
  }

  lemma FindBare()
    ensures Lookup("{ab:null}", 0, "ab") == None
  {
    hide ObjectNext, FindKey, FindSegment, Spell, SegLen, Skip;
    var s: Text, p := "{ab:null}", "ab";
    SegOfDotless(p);
    BareMember();
    FindKeyCons(s, 1, p);
    var next := ObjectNext(s, 1).next;
    assert !StrCmp(s, 2, p, 0, 2);
    NoMember(s, next);
    FindKeyCons(s, next, p);
    assert EnumInit(s, 0, '{') == 1;
    SegmentInObject(s, 0, p);
  }

  /** The one member, and the brace behind it. */
  lemma BareMember()
    ensures var s: Text, m := "{ab:null}", ObjectNext("{ab:null}", 1);
            m.key == 1 && m.next < |s| && s[m.next] == '}'
  {
    hide ObjectNext, Skip, SpellPairs, DocPairsOk;
    var s: Text := "{ab:null}";
    BareText();
    assert s[1..] == "ab:null}";
    AtSuffix(s, 1);
    NextMember(s, 1, BarePairs, false, "");
    assert BarePairs[1..] == [];
    PairsStart(s, NextPair(1, BarePairs, false), [], false, "");
  }

  lemma AtSuffix(s: Text, i: nat)
    requires i <= |s|
    ensures At(s, i, s[i..])
  {
  }
}
