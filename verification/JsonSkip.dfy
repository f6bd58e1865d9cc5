// Skip over values in any layout.  Everything is stated for a value embedded at any
// offset of any text, because the enumeration works on offsets.
module JsonSkip {
  import opened Common
  import opened JsonChars
  import opened JsonScan
  import opened JsonValue
  import opened JsonRead
  import opened JsonLayout

  // ---- skipping tokens and the spaces behind them ------------------------

  predicate WordStops(s: string, i: nat) { i >= |s| || !IsWordNonBegin(s[i]) }

  /** No space at `i`, so skipping spaces stays there. */
  predicate NoSpace(s: string, i: nat) { i >= |s| || !IsSpace(s[i]) }

  /** Spaces `w` stand at `i`, and no more follow. */
  ghost predicate Gap(s: string, i: nat, w: string)
  {
    At(s, i, w) && Spaces(w) && NoSpace(s, i + |w|)
  }

  lemma {:induction false} SkipGap(s: Text, i: nat, w: string)
    requires Gap(s, i, w)
    ensures SpaceEnd(s, i) == i + |w|
    decreases |w|
  {
    if w != "" {
      assert w == [w[0]] + w[1..];
      AtConcat(s, i, [w[0]], w[1..]);
      assert s[i] == [w[0]][0];
      SkipGap(s, i + 1, w[1..]);
    }
  }

  lemma StrEndOverPiece(s: Text, j: nat, p: Piece)
    requires PieceOk(p) && At(s, j, SpellPiece(p))
    ensures StrEnd(s, j) == StrEnd(s, j + |SpellPiece(p)|)
  {
    var t := SpellPiece(p);
    assert s[j] == t[0];
    if p.Hex? {
      assert s[j + 2] == t[2] && s[j + 3] == t[3] && s[j + 4] == t[4] && s[j + 5] == t[5];
      assert StrEnd(s, j + 2) == StrEnd(s, j + 4);
    }
  }

  lemma SpellCons(ps: seq<Piece>)
    requires PiecesOk(ps) && ps != []
    ensures PieceOk(ps[0]) && PiecesOk(ps[1..])
    ensures SpellPieces(ps) + "\"" == SpellPiece(ps[0]) + (SpellPieces(ps[1..]) + "\"")
    ensures Decoded(ps) == PieceBytes(ps[0]) + Decoded(ps[1..])
  {
    hide SpellPiece, PieceBytes, PieceOk;
  }

  lemma QuoteAt(s: Text, j: nat)
    requires At(s, j, SpellPieces([]) + "\"")
    ensures j < |s| && s[j] == '"'
  {
    assert s[j] == (SpellPieces([]) + "\"")[0];
  }

  lemma {:induction false} StrEndAtQuote(s: Text, j: nat, ps: seq<Piece>)
    requires PiecesOk(ps) && At(s, j, SpellPieces(ps) + "\"")
    ensures StrEnd(s, j) == j + |SpellPieces(ps) + "\""|
    decreases |ps|
  {
    if ps != [] {
      hide StrEnd, SpellPiece, SpellPieces, PiecesOk, PieceOk, At;
      var e, rest := SpellPiece(ps[0]), SpellPieces(ps[1..]) + "\"";
      SpellCons(ps);
      AtConcat(s, j, e, rest);
      StrEndOverPiece(s, j, ps[0]);
      StrEndAtQuote(s, j + |e|, ps[1..]);
    } else {
      QuoteAt(s, j);
    }
  }

  lemma SkipString(s: Text, i: nat, ps: seq<Piece>, w: string)
    requires PiecesOk(ps) && At(s, i, StringText(ps)) && Gap(s, i + |StringText(ps)|, w)
    ensures SkipItem(s, i) == i + |StringText(ps)| + |w|
  {
    hide StrEnd, SpellPieces, SkipGroup, Gap;
    AtConcat(s, i, "\"", SpellPieces(ps) + "\"");
    assert s[i] == StringText(ps)[0];
    StrEndAtQuote(s, i + 1, ps);
    var e := i + |StringText(ps)|;
    SkipGap(s, e, w);
    assert StepAt(s, i) == Advance(e + |w|, 0);
  }

  lemma {:induction false} WordEndAtStop(s: Text, j: nat, k: nat)
    requires j <= k <= |s| && WordStops(s, k)
    requires forall m :: j <= m < k ==> IsWordNonBegin(s[m])
    ensures WordEnd(s, j) == k
    decreases k - j
  {
    if j < k { WordEndAtStop(s, j + 1, k); }
  }

  /** A single word. */
  predicate IsWord(w: string)
  {
    |w| > 0 && IsWordBegin(w[0]) && forall k :: 1 <= k < |w| ==> IsWordNonBegin(w[k])
  }

  lemma WordRuns(s: Text, i: nat, w: string)
    requires IsWord(w) && At(s, i, w)
    ensures |w| > 0 && s[i] == w[0] && forall m :: i < m < i + |w| ==> IsWordNonBegin(s[m])
  {
    assert s[i] == w[0];
    forall m | i < m < i + |w| ensures IsWordNonBegin(s[m]) { assert s[m] == w[m - i]; }
  }

  lemma EndsAfterSpaces(s: Text, i: nat, w: string)
    requires At(s, i, w) && Spaces(w) && Ends(s, i + |w|)
    ensures Gap(s, i, w) && WordStops(s, i)
  {
    if w != "" { assert s[i] == w[0]; }
  }

  lemma SkipWordAt(s: Text, i: nat, w: string, sp: string)
    requires IsWord(w) && At(s, i, w)
    requires At(s, i + |w|, sp) && Spaces(sp) && Ends(s, i + |w| + |sp|)
    ensures SkipItem(s, i) == i + |w| + |sp|
    ensures WordEnd(s, i + 1) == i + |w| && WordStops(s, i + |w|)
  {
    hide IsWordBegin, Ends, WordEnd, IsWord, Spaces;
    WordRuns(s, i, w);
    EndsAfterSpaces(s, i + |w|, sp);
    WordEndAtStop(s, i + 1, i + |w|);
    SkipGap(s, i + |w|, sp);
    SkipItemOfWord(s, i, w);
  }

  lemma SkipItemOfWord(s: Text, i: nat, w: string)
    requires i < |s| && IsWord(w) && s[i] == w[0]
    ensures SkipItem(s, i) == SpaceEnd(s, WordEnd(s, i + 1))
  {
  }

  /** Inside a group, an item is skipped and the group goes on behind it. */
  lemma GroupStep(s: Text, i: nat, next: nat)
    requires i < |s| && !IsCloser(s[i]) && SkipItem(s, i) == next < |s|
    ensures SkipGroup(s, i) == SkipGroup(s, next)
  {
  }

  lemma SkipPunct(s: Text, i: nat, w: string)
    requires i < |s| && (s[i] == ':' || s[i] == ',') && Gap(s, i + 1, w)
    ensures SkipItem(s, i) == i + 1 + |w|
  {
    hide Gap;
    SkipGap(s, i + 1, w);
  }

  lemma CloseGroup(s: Text, i: nat, w: string)
    requires i < |s| && IsCloser(s[i]) && Gap(s, i + 1, w)
    ensures SkipGroup(s, i) == i + 1 + |w|
  {
    hide Gap;
    SkipGap(s, i + 1, w);
  }

  lemma OpenGroup(s: Text, i: nat, w: string)
    requires i < |s| && IsOpener(s[i]) && Gap(s, i + 1, w)
    ensures SkipItem(s, i) == SkipGroup(s, i + 1 + |w|)
  {
    hide Gap;
    SkipGap(s, i + 1, w);
  }

  // ---- the parts of a container ------------------------------------------

  /** A value can start here. */
  predicate StartsValue(s: string, i: nat)
  {
    i < |s| && !IsSpace(s[i]) && !IsCloser(s[i]) && s[i] != ',' && s[i] != ':'
  }

  predicate StartsKey(s: string, i: nat)
  {
    i < |s| && (s[i] == '"' || IsTagBegin(s[i]))
  }

  lemma DocStart(s: Text, i: nat, d: Doc)
    requires DocOk(d) && At(s, i, Spell(d))
    ensures |Spell(d)| > 0 && StartsValue(s, i)
  {
    hide SpellPairs, SpellItems, SpellPieces, DocPairsOk, DocItemsOk, PiecesOk;
    assert Spell(d) != "" && !IsSpace(Spell(d)[0]) && !IsCloser(Spell(d)[0])
           && Spell(d)[0] != ',' && Spell(d)[0] != ':';
    assert s[i] == Spell(d)[0];
  }

  lemma KeyStart(s: Text, i: nat, key: Key)
    requires KeyOk(key) && At(s, i, KeyText(key))
    ensures |KeyText(key)| > 0 && StartsKey(s, i)
  {
    assert s[i] == KeyText(key)[0];
  }

  /** The offset behind a comma and its spaces, if there is one. */
  function Behind(sep: nat, there: bool, w: string): nat { sep + |Comma(there, w)| }

  /** A comma with its spaces, or nothing, between a value and what follows. */
  ghost predicate Separated(s: Text, sep: nat, there: bool, w: string, next: nat)
  {
    sep < |s| && next == Behind(sep, there, w) && next < |s| && !IsSpace(s[next])
    && if there then s[sep] == ',' && At(s, sep + 1, w) else IsCloser(s[sep])
  }

  /** Where the parts of `p`, standing at `i`, begin. */
  function ColonAt(i: nat, p: DocPair): nat
    requires KeyOk(p.key)
  {
    i + |KeyText(p.key)| + |p.afterKey|
  }

  function ValueAt(i: nat, p: DocPair): nat
    requires KeyOk(p.key)
  {
    ColonAt(i, p) + 1 + |p.afterColon|
  }

  function PairSep(i: nat, p: DocPair): nat
    requires KeyOk(p.key) && DocOk(p.value)
  {
    ValueAt(i, p) + |Spell(p.value)|
  }

  lemma HeadOk(pairs: seq<DocPair>)
    requires pairs != [] && DocPairsOk(pairs)
    ensures var p := pairs[0];
            && KeyOk(p.key) && Spaces(p.afterKey) && Spaces(p.afterColon) && DocOk(p.value)
            && Spaces(p.afterComma) && DocPairsOk(pairs[1..])
  {
  }

  ghost predicate PairStands(s: Text, i: nat, p: DocPair)
    requires KeyOk(p.key) && DocOk(p.value)
  {
    && StartsKey(s, i) && At(s, i, KeyText(p.key)) && At(s, i + |KeyText(p.key)|, p.afterKey)
    && ColonAt(i, p) < |s| && s[ColonAt(i, p)] == ':' && At(s, ColonAt(i, p) + 1, p.afterColon)
    && StartsValue(s, ValueAt(i, p)) && At(s, ValueAt(i, p), Spell(p.value))
  }

  lemma PairParts(s: Text, i: nat, p: DocPair, after: string)
    requires KeyOk(p.key) && DocOk(p.value)
    requires At(s, i, KeyText(p.key) + (p.afterKey + (":" + (p.afterColon + (Spell(p.value) + after)))))
    ensures PairStands(s, i, p) && At(s, PairSep(i, p), after)
  {
    hide Spell, KeyText, KeyOk, DocOk, IsSpace, IsTagBegin;
    var v := Spell(p.value) + after;
    var colon := ":" + (p.afterColon + v);
    AtConcat(s, i, KeyText(p.key), p.afterKey + colon);
    AtConcat(s, i + |KeyText(p.key)|, p.afterKey, colon);
    AtConcat(s, ColonAt(i, p), ":", p.afterColon + v);
    AtConcat(s, ColonAt(i, p) + 1, p.afterColon, v);
    AtConcat(s, ValueAt(i, p), Spell(p.value), after);
    assert s[ColonAt(i, p)] == ":"[0];
    KeyStart(s, i, p.key);
    DocStart(s, ValueAt(i, p), p.value);
  }

  lemma PairsStart(s: Text, i: nat, pairs: seq<DocPair>, comma: bool, close: string)
    requires DocPairsOk(pairs) && At(s, i, SpellPairs(pairs, comma, close))
    ensures i < |s| && !IsSpace(s[i])
    ensures pairs == [] ==> s[i] == '}' && At(s, i + 1, close)
    ensures pairs != [] ==> StartsKey(s, i)
  {
    hide Spell, KeyText, KeyOk, DocOk;
    if pairs == [] {
      AtConcat(s, i, "}", close);
      assert s[i] == "}"[0];
    } else {
      HeadOk(pairs);
      PairParts(s, i, pairs[0], Comma(|pairs| > 1 || comma, pairs[0].afterComma) + SpellPairs(pairs[1..],
        comma, close));
    }
  }

  lemma CommaParts(s: Text, sep: nat, there: bool, w: string, rest: string)
    requires At(s, sep, Comma(there, w) + rest)
    ensures At(s, Behind(sep, there, w), rest)
    ensures there ==> sep < |s| && s[sep] == ',' && At(s, sep + 1, w)
  {
    AtConcat(s, sep, Comma(there, w), rest);
    if there {
      AtConcat(s, sep, ",", w);
      assert s[sep] == ","[0];
    }
  }

  lemma Separates(s: Text, sep: nat, there: bool, w: string, rest: string)
    requires At(s, sep, Comma(there, w) + rest)
    requires var next := Behind(sep, there, w); next < |s| && !IsSpace(s[next]) && (!there ==> IsCloser(s[next]))
    ensures Separated(s, sep, there, w, Behind(sep, there, w))
  {
    hide At, IsSpace, IsCloser;
    CommaParts(s, sep, there, w, rest);
  }

  /** Whether a comma stands behind the first of `n` members. */
  predicate CommaAfter(n: nat, comma: bool) { n > 1 || comma }

  function NextPair(i: nat, pairs: seq<DocPair>, comma: bool): nat
    requires pairs != [] && KeyOk(pairs[0].key) && DocOk(pairs[0].value)
  {
    Behind(PairSep(i, pairs[0]), CommaAfter(|pairs|, comma), pairs[0].afterComma)
  }

  lemma PairsUnfold(pairs: seq<DocPair>, comma: bool, close: string)
    requires pairs != [] && DocPairsOk(pairs) && KeyOk(pairs[0].key) && DocOk(pairs[0].value)
             && DocPairsOk(pairs[1..])
    ensures var p, rest := pairs[0], SpellPairs(pairs[1..], comma, close);
            SpellPairs(pairs, comma, close) ==
              KeyText(p.key) + (p.afterKey + (":" + (p.afterColon + (Spell(p.value)
                + (Comma(CommaAfter(|pairs|, comma), p.afterComma) + rest)))))
    ensures pairs[1..] == [] <==> |pairs| == 1
  {
    hide Spell, DocOk, Comma, KeyText, KeyOk;
  }

  lemma PairsParts(s: Text, i: nat, pairs: seq<DocPair>, comma: bool, close: string)
    requires pairs != [] && DocPairsOk(pairs) && At(s, i, SpellPairs(pairs, comma, close))
    ensures KeyOk(pairs[0].key) && DocOk(pairs[0].value) && PairStands(s, i, pairs[0])
    ensures Separated(s, PairSep(i, pairs[0]), CommaAfter(|pairs|, comma), pairs[0].afterComma, NextPair(i, pairs,
                      comma))
    ensures At(s, NextPair(i, pairs, comma), SpellPairs(pairs[1..], comma, close))
    ensures i + |SpellPairs(pairs, comma, close)| ==
              NextPair(i, pairs, comma) + |SpellPairs(pairs[1..], comma, close)|
  {
    hide Spell, SpellPairs, KeyText, KeyOk, DocOk, At, PairStands, IsSpace, DocPairsOk, Comma, Separated;
    HeadOk(pairs);
    PairsUnfold(pairs, comma, close);
    var there, w := CommaAfter(|pairs|, comma), pairs[0].afterComma;
    var rest := SpellPairs(pairs[1..], comma, close);
    PairParts(s, i, pairs[0], Comma(there, w) + rest);
    CommaParts(s, PairSep(i, pairs[0]), there, w, rest);
    PairsStart(s, NextPair(i, pairs, comma), pairs[1..], comma, close);
    Separates(s, PairSep(i, pairs[0]), there, w, rest);
  }

  lemma ItemsStart(s: Text, i: nat, items: seq<DocItem>, comma: bool, close: string)
    requires DocItemsOk(items) && At(s, i, SpellItems(items, comma, close))
    ensures i < |s| && !IsSpace(s[i])
    ensures items == [] ==> s[i] == ']' && At(s, i + 1, close)
    ensures items != [] ==> StartsValue(s, i)
  {
    hide Spell, DocOk;
    if items == [] {
      AtConcat(s, i, "]", close);
      assert s[i] == "]"[0];
    } else {
      AtConcat(s, i, Spell(items[0].value),
        Comma(|items| > 1 || comma, items[0].afterComma) + SpellItems(items[1..], comma, close));
      DocStart(s, i, items[0].value);
    }
  }

  function ItemSep(i: nat, items: seq<DocItem>): nat
    requires items != [] && DocOk(items[0].value)
  {
    i + |Spell(items[0].value)|
  }

  function NextItem(i: nat, items: seq<DocItem>, comma: bool): nat
    requires items != [] && DocOk(items[0].value)
  {
    Behind(ItemSep(i, items), CommaAfter(|items|, comma), items[0].afterComma)
  }

  lemma ItemHeadOk(items: seq<DocItem>)
    requires items != [] && DocItemsOk(items)
    ensures DocOk(items[0].value) && Spaces(items[0].afterComma) && DocItemsOk(items[1..])
  {
  }

  lemma ItemsUnfold(items: seq<DocItem>, comma: bool, close: string)
    requires items != [] && DocItemsOk(items)
    ensures var w, rest := items[0].afterComma, SpellItems(items[1..], comma, close);
            SpellItems(items, comma, close) ==
              Spell(items[0].value) + (Comma(CommaAfter(|items|, comma), w) + rest)
    ensures items[1..] == [] <==> |items| == 1
  {
    hide Spell, DocOk, Comma;
  }

  lemma ItemsParts(s: Text, i: nat, items: seq<DocItem>, comma: bool, close: string)
    requires items != [] && DocItemsOk(items) && At(s, i, SpellItems(items, comma, close))
    ensures DocOk(items[0].value) && StartsValue(s, i) && At(s, i, Spell(items[0].value))
    ensures Separated(s, ItemSep(i, items), CommaAfter(|items|, comma), items[0].afterComma, NextItem(i, items,
                      comma))
    ensures At(s, NextItem(i, items, comma), SpellItems(items[1..], comma, close))
    ensures i + |SpellItems(items, comma, close)| ==
              NextItem(i, items, comma) + |SpellItems(items[1..], comma, close)|
  {
    hide Spell, SpellItems, DocOk, DocItemsOk, At, IsSpace, Comma, Separated;
    ItemHeadOk(items);
    ItemsUnfold(items, comma, close);
    var there, w := CommaAfter(|items|, comma), items[0].afterComma;
    var rest := SpellItems(items[1..], comma, close);
    ItemsStart(s, i, items, comma, close);
    AtConcat(s, i, Spell(items[0].value), Comma(there, w) + rest);
    CommaParts(s, ItemSep(i, items), there, w, rest);
    ItemsStart(s, NextItem(i, items, comma), items[1..], comma, close);
    Separates(s, ItemSep(i, items), there, w, rest);
  }

  lemma SeparatedEnds(s: Text, sep: nat, there: bool, w: string, next: nat)
    requires Separated(s, sep, there, w, next) && Spaces(w)
    ensures sep < |s| && Ends(s, sep)
    ensures next < |s| && NoSpace(s, next)
    ensures there ==> s[sep] == ',' && SkipItem(s, sep) == next
    ensures !there ==> IsCloser(s[sep]) && sep == next
  {
    hide Spaces;
    if there { SkipPunct(s, sep, w); }
  }

  // ---- Skip on a spelled value -------------------------------------------

  /** Where a document stands in a text, with nothing running into its end. */
  ghost predicate Placed(s: Text, i: nat, d: Doc)
  {
    DocOk(d) && At(s, i, Spell(d)) && Ends(s, i + |Spell(d)|)
  }

  lemma SkipKey(s: Text, i: nat, p: DocPair)
    requires KeyOk(p.key) && DocOk(p.value) && Spaces(p.afterKey) && Spaces(p.afterColon)
    requires PairStands(s, i, p)
    ensures SkipItem(s, i) == ColonAt(i, p)
    ensures SkipItem(s, ColonAt(i, p)) == ValueAt(i, p)
  {
    hide Spell, DocOk, SkipItem, At, Spaces, SpellPieces, PiecesOk;
    var e := i + |KeyText(p.key)|;
    EndsAfterSpaces(s, e, p.afterKey);
    SkipPunct(s, ColonAt(i, p), p.afterColon);
    match p.key
    case Quoted(ps) => SkipString(s, i, ps, p.afterKey);
    case Tag(name) => SkipWordAt(s, i, name, p.afterKey);
  }

  lemma SkipScalar(s: Text, i: nat, d: Doc)
    requires Placed(s, i, d) && !d.DObject? && !d.DArray?
    ensures SkipItem(s, i) == i + |Spell(d)|
  {
    hide SkipItem, At, Ends, Spaces, SpellPieces, PiecesOk;
    AtConcat(s, i, Token(d), d.after);
    EndsAfterSpaces(s, i + |Token(d)|, d.after);
    if d.DString? { SkipString(s, i, d.pieces, d.after); } else { SkipWordAt(s, i, Token(d), d.after); }
  }

  lemma OpenerAt(s: Text, i: nat, opener: char, w: string, rest: string)
    requires At(s, i, [opener] + (w + rest))
    ensures i < |s| && s[i] == opener && At(s, i + 1, w) && At(s, i + 1 + |w|, rest)
  {
    AtConcat(s, i, [opener], w + rest);
    AtConcat(s, i + 1, w, rest);
    assert s[i] == [opener][0];
  }

  lemma EndIsNoSpace(s: Text, i: nat)
    requires Ends(s, i)
    ensures NoSpace(s, i)
  {
  }

  lemma {:induction false} SkipItemSpelled(s: Text, i: nat, d: Doc)
    requires Placed(s, i, d)
    ensures SkipItem(s, i) == i + |Spell(d)|
    decreases d
  {
    hide SkipItem, SkipGroup, At, Spaces, SpellPairs, SpellItems, DocPairsOk, DocItemsOk, Ends;
    EndIsNoSpace(s, i + |Spell(d)|);
    match d
    case DObject(open, pairs, comma, close) =>
      OpenerAt(s, i, '{', open, SpellPairs(pairs, comma, close));
      PairsStart(s, i + 1 + |open|, pairs, comma, close);
      SkipPairs(s, i + 1 + |open|, pairs, comma, close);
      OpenGroup(s, i, open);
    case DArray(open, items, comma, close) =>
      OpenerAt(s, i, '[', open, SpellItems(items, comma, close));
      ItemsStart(s, i + 1 + |open|, items, comma, close);
      SkipItems(s, i + 1 + |open|, items, comma, close);
      OpenGroup(s, i, open);
    case _ => SkipScalar(s, i, d);
  }

  /** A value at the end of which a separator stands. */
  lemma PlacedBefore(s: Text, i: nat, d: Doc, there: bool, w: string, next: nat)
    requires DocOk(d) && At(s, i, Spell(d)) && Separated(s, i + |Spell(d)|, there, w, next) && Spaces(w)
    ensures Placed(s, i, d)
  {
    SeparatedEnds(s, i + |Spell(d)|, there, w, next);
  }

  lemma {:induction false} SkipPairs(s: Text, i: nat, pairs: seq<DocPair>, comma: bool, close: string)
    requires DocPairsOk(pairs) && Spaces(close) && At(s, i, SpellPairs(pairs, comma, close))
    requires NoSpace(s, i + |SpellPairs(pairs, comma, close)|)
    ensures SkipGroup(s, i) == i + |SpellPairs(pairs, comma, close)|
    decreases pairs
  {
    hide *;
    if pairs == [] {
      SkipNoPairs(s, i, comma, close);
    } else {
      HeadOk(pairs);
      PairsParts(s, i, pairs, comma, close);
      var next := NextPair(i, pairs, comma);
      SkipPairs(s, next, pairs[1..], comma, close);
      PlacedPair(s, i, pairs, comma, close);
      SkipItemSpelled(s, ValueAt(i, pairs[0]), pairs[0].value);
      SkipFirstPair(s, i, pairs, comma);
    }
  }

  lemma SkipNoPairs(s: Text, i: nat, comma: bool, close: string)
    requires Spaces(close) && At(s, i, SpellPairs([], comma, close))
    requires NoSpace(s, i + |SpellPairs([], comma, close)|)
    ensures SkipGroup(s, i) == i + |SpellPairs([], comma, close)|
  {
    hide SkipGroup;
    PairsStart(s, i, [], comma, close);
    CloseGroup(s, i, close);
  }

  lemma PlacedPair(s: Text, i: nat, pairs: seq<DocPair>, comma: bool, close: string)
    requires pairs != [] && DocPairsOk(pairs) && At(s, i, SpellPairs(pairs, comma, close))
    ensures KeyOk(pairs[0].key) && Placed(s, ValueAt(i, pairs[0]), pairs[0].value)
  {
    hide Spell, SpellPairs, DocOk, At, KeyOk, Spaces, Separated, Placed, ValueAt, DocPairsOk;
    HeadOk(pairs);
    PairsParts(s, i, pairs, comma, close);
    PlacedBefore(s, ValueAt(i, pairs[0]), pairs[0].value, CommaAfter(|pairs|, comma), pairs[0].afterComma,
      NextPair(i, pairs, comma));
  }

  /** Inside a group, a member is skipped as three items, a comma as one more. */
  lemma SkipFirstPair(s: Text, i: nat, pairs: seq<DocPair>, comma: bool)
    requires pairs != [] && DocPairsOk(pairs) && KeyOk(pairs[0].key) && DocOk(pairs[0].value)
    requires PairStands(s, i, pairs[0])
    requires Separated(s, PairSep(i, pairs[0]), CommaAfter(|pairs|, comma), pairs[0].afterComma, NextPair(i, pairs,
                       comma))
    requires SkipItem(s, ValueAt(i, pairs[0])) == ValueAt(i, pairs[0]) + |Spell(pairs[0].value)|
    ensures SkipGroup(s, i) == SkipGroup(s, NextPair(i, pairs, comma))
  {
    hide SkipItem, SkipGroup, Spell, KeyText, DocOk, KeyOk, At, Spaces, DocPairsOk, Separated;
    HeadOk(pairs);
    var p := pairs[0];
    SkipKey(s, i, p);
    SeparatedEnds(s, PairSep(i, p), CommaAfter(|pairs|, comma), p.afterComma, NextPair(i, pairs, comma));
    GroupStep(s, i, ColonAt(i, p));
    GroupStep(s, ColonAt(i, p), ValueAt(i, p));
    GroupStep(s, ValueAt(i, p), PairSep(i, p));
    if CommaAfter(|pairs|, comma) { GroupStep(s, PairSep(i, p), NextPair(i, pairs, comma)); }
  }

  lemma {:induction false} SkipItems(s: Text, i: nat, items: seq<DocItem>, comma: bool, close: string)
    requires DocItemsOk(items) && Spaces(close) && At(s, i, SpellItems(items, comma, close))
    requires NoSpace(s, i + |SpellItems(items, comma, close)|)
    ensures SkipGroup(s, i) == i + |SpellItems(items, comma, close)|
    decreases items
  {
    hide *;
    if items == [] {
      SkipNoItems(s, i, comma, close);
    } else {
      ItemHeadOk(items);
      ItemsParts(s, i, items, comma, close);
      var next := NextItem(i, items, comma);
      SkipItems(s, next, items[1..], comma, close);
      PlacedItem(s, i, items, comma, close);
      SkipItemSpelled(s, i, items[0].value);
      SkipFirstItem(s, i, items, comma);
    }
  }

  lemma SkipNoItems(s: Text, i: nat, comma: bool, close: string)
    requires Spaces(close) && At(s, i, SpellItems([], comma, close))
    requires NoSpace(s, i + |SpellItems([], comma, close)|)
    ensures SkipGroup(s, i) == i + |SpellItems([], comma, close)|
  {
    hide SkipGroup;
    ItemsStart(s, i, [], comma, close);
    CloseGroup(s, i, close);
  }

  lemma PlacedItem(s: Text, i: nat, items: seq<DocItem>, comma: bool, close: string)
    requires items != [] && DocItemsOk(items) && At(s, i, SpellItems(items, comma, close))
    ensures Placed(s, i, items[0].value)
  {
    hide Spell, SpellItems, DocOk, At, Spaces, Separated, Placed, DocItemsOk;
    ItemHeadOk(items);
    ItemsParts(s, i, items, comma, close);
    PlacedBefore(s, i, items[0].value, CommaAfter(|items|, comma), items[0].afterComma, NextItem(i, items, comma));
  }

  lemma SkipFirstItem(s: Text, i: nat, items: seq<DocItem>, comma: bool)
    requires items != [] && DocItemsOk(items) && DocOk(items[0].value) && StartsValue(s, i)
    requires Separated(s, ItemSep(i, items), CommaAfter(|items|, comma), items[0].afterComma, NextItem(i, items,
                       comma))
    requires SkipItem(s, i) == i + |Spell(items[0].value)|
    ensures SkipGroup(s, i) == SkipGroup(s, NextItem(i, items, comma))
  {
    hide SkipItem, SkipGroup, Spell, DocOk, At, Spaces, DocItemsOk, Separated;
    ItemHeadOk(items);
    SeparatedEnds(s, ItemSep(i, items), CommaAfter(|items|, comma), items[0].afterComma, NextItem(i, items, comma));
    GroupStep(s, i, ItemSep(i, items));
    if CommaAfter(|items|, comma) { GroupStep(s, ItemSep(i, items), NextItem(i, items, comma)); }
  }

  /** Skip, started on a value in any layout embedded in any text, returns exactly
      that value's end with the spaces behind it: at any depth, with brackets and
      quotes inside strings. */
  lemma SkipSpelled(s: Text, i: nat, d: Doc)
    requires Placed(s, i, d)
    ensures Skip(s, i) == i + |Spell(d)|
  {
    SkipIsSkipItem(s, i);
    SkipItemSpelled(s, i, d);
  }

  lemma PlacedPrinted(s: Text, i: nat, t: JSValue)
    requires NumbersOk(t) && At(s, i, Print(t)) && Ends(s, i + |Print(t)|)
    ensures Placed(s, i, LayoutOf(t)) && Spell(LayoutOf(t)) == Print(t) && Tree(LayoutOf(t)) == Cut(t)
  {
    hide Spell, Print, Tree, Cut, LayoutOf;
    PrintedIsSpelled(t);
  }

  /** ... so on any printed value. */
  lemma SkipPrinted(s: Text, i: nat, t: JSValue)
    requires NumbersOk(t) && At(s, i, Print(t)) && Ends(s, i + |Print(t)|)
    ensures Skip(s, i) == i + |Print(t)|
  {
    hide Spell, Print, Placed;
    PlacedPrinted(s, i, t);
    SkipSpelled(s, i, LayoutOf(t));
  }
}
