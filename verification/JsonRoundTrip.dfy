// Parsing undoes printing, and reads every other layout of the same tree alike.
module JsonRoundTrip {
  import opened Common
  import opened JsonChars
  import opened JsonScan
  import opened JsonValue
  import opened JsonRead
  import opened JsonLayout
  import opened JsonSkip

  // ---- strings -----------------------------------------------------------

  lemma HexDigitRead(v: nat, upper: bool)
    requires v < 16
    ensures HexValue(HexDigit(v, upper)) == Some(v)
  {
  }

  lemma FourDigits(code: nat)
    requires code < 0x1_0000
    ensures ((code / 4096 * 16 + code / 256 % 16) * 16 + code / 16 % 16) * 16 + code % 16 == code
  {
    assert code / 16 == code / 16 / 16 * 16 + code / 16 % 16;
    assert code / 16 / 16 == code / 256 && code / 256 / 16 == code / 4096;
    assert code / 256 == code / 256 / 16 * 16 + code / 256 % 16;
  }

  /** Four hex digits, each in either case, are read as the number they spell. */
  lemma CodePointRead(s: Text, i: nat, code: nat, upper: (bool, bool, bool, bool))
    requires code < 0x1_0000 && At(s, i, SpellPiece(Hex(code, upper)))
    ensures CodePoint(s, i + 2) == Some(code)
  {
    hide HexValue, HexDigit;
    var t := SpellPiece(Hex(code, upper));
    assert s[i + 2] == t[2] && s[i + 3] == t[3] && s[i + 4] == t[4] && s[i + 5] == t[5];
    HexDigitRead(code / 4096, upper.0);
    HexDigitRead(code / 256 % 16, upper.1);
    HexDigitRead(code / 16 % 16, upper.2);
    HexDigitRead(code % 16, upper.3);
    FourDigits(code);
  }

  lemma DecodePiece(s: Text, j: nat, p: Piece)
    requires PieceOk(p) && At(s, j, SpellPiece(p))
    ensures Decode(s, j) == Prepend(PieceBytes(p), Decode(s, j + |SpellPiece(p)|))
  {
    hide CodePoint, HexDigit, Utf8, Prepend;
    assert s[j] == SpellPiece(p)[0];
    if !p.Raw? {
      assert s[j + 1] == SpellPiece(p)[1];
      EscapeOfPiece(s, j, p);
    }
  }

  lemma EscapeOfPiece(s: Text, j: nat, p: Piece)
    requires PieceOk(p) && !p.Raw? && At(s, j, SpellPiece(p))
    ensures ReadEscape(s, j + 1) == Esc(PieceBytes(p), |SpellPiece(p)| - 1)
  {
    hide CodePoint, HexDigit, Utf8;
    assert s[j + 1] == SpellPiece(p)[1];
    if p.Hex? { CodePointRead(s, j, p.code, p.upper); }
  }

  lemma {:induction false} DecodeSpelled(s: Text, j: nat, ps: seq<Piece>)
    requires PiecesOk(ps) && At(s, j, SpellPieces(ps) + "\"")
    ensures Decode(s, j) == Some(Decoded(ps))
    decreases |ps|
  {
    if ps != [] {
      hide SpellPiece, SpellPieces, PieceBytes, Decode, Decoded, PiecesOk, PieceOk, At;
      var e, rest := SpellPiece(ps[0]), SpellPieces(ps[1..]) + "\"";
      SpellCons(ps);
      AtConcat(s, j, e, rest);
      DecodePiece(s, j, ps[0]);
      DecodeSpelled(s, j + |e|, ps[1..]);
    } else {
      QuoteAt(s, j);
    }
  }

  /** GetString over a string spelled in any way, with every kind of escape, gives
      the bytes it stands for. */
  lemma GetStringSpelled(s: Text, i: nat, ps: seq<Piece>)
    requires PiecesOk(ps) && At(s, i, StringText(ps))
    ensures i < |s| && s[i] == '"'
    ensures GetString(s, i) == Some(Decoded(ps))
  {
    hide SpellPieces, Decoded, Decode;
    AtConcat(s, i, "\"", SpellPieces(ps) + "\"");
    assert s[i] == StringText(ps)[0];
    DecodeSpelled(s, i + 1, ps);
  }

  lemma {:induction false} DecodedConcat(a: seq<Piece>, b: seq<Piece>)
    requires PiecesOk(a) && PiecesOk(b)
    ensures PiecesOk(a + b) && Decoded(a + b) == Decoded(a) + Decoded(b)
  {
    hide PieceOk, PieceBytes;
    if a == [] {
      assert a + b == b;
    } else {
      assert (a + b)[1..] == a[1..] + b;
      DecodedConcat(a[1..], b);
    }
  }

  /** Wherever \u and four hex digits stand in a string, GetString puts at that place
      the encoding, in the sense of section 3 of RFC 3629, of the number they spell. */
  lemma UnicodeRead(s: Text, i: nat, before: seq<Piece>, code: nat, upper: (bool, bool, bool, bool),
                    after: seq<Piece>)
    requires PiecesOk(before) && PiecesOk(after) && code < 0x1_0000
    requires PiecesOk(before + ([Hex(code, upper)] + after))
    requires At(s, i, StringText(before + ([Hex(code, upper)] + after)))
    ensures GetString(s, i).Some?
    ensures var b, n := GetString(s, i).value, |Decoded(before)|;
            && |b| == n + |Utf8(code)| + |Decoded(after)|
            && b[..n] == Decoded(before) && b[n + |Utf8(code)|..] == Decoded(after)
            && Utf8Value(b[n..]) == Some((code, |Utf8(code)|))
  {
    hide Utf8, Utf8Value, At, StringText, Decoded, PiecesOk, GetString;
    var hex := [Hex(code, upper)];
    GetStringSpelled(s, i, before + (hex + after));
    HexDecodes(code, upper);
    DecodedConcat(hex, after);
    DecodedConcat(before, hex + after);
    Utf8RoundTrip(code, Decoded(after));
    Middle(Decoded(before), Utf8(code), Decoded(after));
  }

  lemma Middle(a: string, b: string, c: string)
    ensures var all := a + (b + c);
            all[..|a|] == a && all[|a|..] == b + c && all[|a| + |b|..] == c
  {
  }

  lemma HexDecodes(code: nat, upper: (bool, bool, bool, bool))
    requires code < 0x1_0000
    ensures PiecesOk([Hex(code, upper)]) && Decoded([Hex(code, upper)]) == Utf8(code)
  {
    hide Utf8;
    var hex := [Hex(code, upper)];
    assert hex[1..] == [];
  }

  // ---- only such strings are read ----------------------------------------

  lemma HexValueWritten(c: char)
    requires HexValue(c).Some?
    ensures HexDigit(HexValue(c).value, 'A' <= c <= 'F') == c
  {
  }

  lemma DigitsOfFour(a: nat, b: nat, c: nat, d: nat)
    requires a < 16 && b < 16 && c < 16 && d < 16
    ensures var code := ((a * 16 + b) * 16 + c) * 16 + d;
            code / 4096 == a && code / 256 % 16 == b && code / 16 % 16 == c && code % 16 == d
  {
  }

  function HexAt(s: Text, i: nat): (p: Piece)
    requires i + 4 <= |s| && CodePoint(s, i).Some?
  {
    Hex(CodePoint(s, i).value,
        ('A' <= s[i] <= 'F', 'A' <= s[i + 1] <= 'F', 'A' <= s[i + 2] <= 'F', 'A' <= s[i + 3] <= 'F'))
  }

  lemma HexSpelled(s: Text, i: nat)
    requires i + 4 <= |s| && CodePoint(s, i).Some?
    ensures PieceOk(HexAt(s, i)) && SpellPiece(HexAt(s, i)) == "\\u" + s[i..i + 4]
  {
    hide HexValue, HexDigit;
    HexValueWritten(s[i]);
    HexValueWritten(s[i + 1]);
    HexValueWritten(s[i + 2]);
    HexValueWritten(s[i + 3]);
    DigitsOfFour(HexValue(s[i]).value, HexValue(s[i + 1]).value, HexValue(s[i + 2]).value, HexValue(s[i + 3]).value);
  }

  /** The piece that stands at `j`, if what stands there decodes. */
  function PieceAt(s: Text, j: nat): (p: Piece)
    requires j < |s| && s[j] != '"' && (s[j] == '\\' ==> ReadEscape(s, j + 1).Esc?)
  {
    if s[j] != '\\' then Raw(s[j])
    else if s[j + 1] == 'u' then HexAt(s, j + 2)
    else Short(s[j + 1])
  }

  lemma PieceStands(s: Text, j: nat)
    requires j < |s| && s[j] != '"' && (s[j] == '\\' ==> ReadEscape(s, j + 1).Esc?)
    ensures PieceOk(PieceAt(s, j)) && At(s, j, SpellPiece(PieceAt(s, j)))
    ensures SpellPiece(PieceAt(s, j)) != ""
    ensures s[j] != '\\' ==> SpellPiece(PieceAt(s, j)) == [s[j]]
    ensures s[j] == '\\' ==> |SpellPiece(PieceAt(s, j))| == 1 + ReadEscape(s, j + 1).len
  {
    hide HexAt, CodePoint, Utf8, HexDigit;
    if s[j] == '\\' && s[j + 1] == 'u' {
      HexSpelled(s, j + 2);
      AtUnicode(s, j);
    }
  }

  lemma AtUnicode(s: Text, j: nat)
    requires j + 6 <= |s| && s[j] == '\\' && s[j + 1] == 'u'
    ensures At(s, j, "\\u" + s[j + 2..j + 6]) && |"\\u" + s[j + 2..j + 6]| == 6
  {
  }

  /** The pieces from `j` up to the closing quote. */
  function PiecesFrom(s: Text, j: nat): (ps: seq<Piece>)
    requires Decode(s, j).Some?
    decreases |s| - j
  {
    if s[j] == '"' then []
    else
      PieceStands(s, j);
      [PieceAt(s, j)] + PiecesFrom(s, j + |SpellPiece(PieceAt(s, j))|)
  }

  lemma PiecesStep(s: Text, j: nat)
    requires Decode(s, j).Some? && s[j] != '"'
    ensures s[j] == '\\' ==> ReadEscape(s, j + 1).Esc?
    ensures var p := PieceAt(s, j);
            var next := j + |SpellPiece(p)|;
            && PieceOk(p) && At(s, j, SpellPiece(p)) && j < next && Decode(s, next).Some?
            && PiecesFrom(s, j) == [p] + PiecesFrom(s, next)
  {
    hide SpellPiece, PieceOk, PieceAt, ReadEscape, At;
    PieceStands(s, j);
  }

  lemma PiecesOkCons(p: Piece, rest: seq<Piece>)
    requires PieceOk(p) && PiecesOk(rest)
    ensures PiecesOk([p] + rest) && ([p] + rest)[1..] == rest
  {
    hide PieceOk;
  }

  lemma PiecesEnd(s: Text, j: nat)
    requires Decode(s, j).Some?
    ensures j < |s|
    ensures s[j] == '"' ==> PiecesFrom(s, j) == [] && PiecesOk([]) && At(s, j, SpellPieces([]) + "\"")
  {
    assert SpellPieces([]) + "\"" == "\"";
  }

  lemma {:induction false} DecodedIsSpelled(s: Text, j: nat)
    requires Decode(s, j).Some?
    ensures PiecesOk(PiecesFrom(s, j)) && At(s, j, SpellPieces(PiecesFrom(s, j)) + "\"")
    decreases |s| - j
  {
    hide *;
    PiecesEnd(s, j);
    if s[j] != '"' {
      PiecesStep(s, j);
      var p := PieceAt(s, j);
      var next := j + |SpellPiece(p)|;
      DecodedIsSpelled(s, next);
      PiecesOkCons(p, PiecesFrom(s, next));
      SpellCons(PiecesFrom(s, j));
      AtConcat(s, j, SpellPiece(p), SpellPieces(PiecesFrom(s, next)) + "\"");
    }
  }

  /** GetString succeeds exactly where a string in some spelling stands, and gives what
      that stands for: no other escape, no open string, no other byte in front. */
  lemma StringsAreSpelled(s: Text, i: nat, b: string)
    ensures GetString(s, i) == Some(b) <==>
              exists ps :: PiecesOk(ps) && At(s, i, StringText(ps)) && Decoded(ps) == b
  {
    hide Decode, SpellPieces, Decoded, At, PiecesOk;
    if GetString(s, i) == Some(b) {
      var ps := PiecesFrom(s, i + 1);
      DecodedIsSpelled(s, i + 1);
      AtConcat(s, i, "\"", SpellPieces(ps) + "\"");
      QuoteStands(s, i);
      GetStringSpelled(s, i, ps);
    }
    forall ps | PiecesOk(ps) && At(s, i, StringText(ps)) ensures GetString(s, i) == Some(Decoded(ps)) {
      GetStringSpelled(s, i, ps);
    }
  }

  lemma QuoteStands(s: Text, i: nat)
    requires i < |s| && s[i] == '"'
    ensures At(s, i, "\"")
  {
  }

  lemma QuoteIsText(text: string)
    ensures StringText(PiecesOf(text)) == Quote(text)
  {
    hide PiecesOf, SpellPieces, Escape;
  }

  /** GetString over what PutString wrote gives back the bytes before the first
      NUL, whatever control bytes, quotes and backslashes they contain. */
  lemma GetStringQuoted(s: Text, i: nat, text: string)
    requires At(s, i, Quote(text))
    ensures i < |s| && s[i] == '"'
    ensures GetString(s, i) == Some(CStr(text))
  {
    hide Quote, PiecesOf, SpellPieces, StringText, GetString;
    QuoteIsText(text);
    GetStringSpelled(s, i, PiecesOf(text));
  }

  // ---- keys and scalars --------------------------------------------------

  lemma {:induction false} TagEndAtStop(s: Text, j: nat, k: nat)
    requires j <= k < |s| && !IsTagChar(s[k])
    requires forall m :: j <= m < k ==> IsWordNonBegin(s[m])
    ensures TagEnd(s, j) == k
    decreases k - j
  {
    if j < k { TagEndAtStop(s, j + 1, k); }
  }

  lemma SliceAt(s: Text, i: nat, w: string)
    requires At(s, i, w)
    ensures i + |w| <= |s| && s[i..i + |w|] == w
  {
  }

  lemma TagRead(s: Text, i: nat, name: string, w: string)
    requires KeyOk(Tag(name)) && At(s, i, name) && At(s, i + |name|, w) && Spaces(w)
    requires i + |name| + |w| < |s| && s[i + |name| + |w|] == ':'
    ensures GetKey(s, i) == Some(name)
  {
    hide At, Spaces, IsWordNonBegin;
    WordRuns(s, i, name);
    SliceAt(s, i, name);
    TagStops(s, i + |name|, w);
    TagEndAtStop(s, i + 1, i + |name|);
  }

  lemma TagStops(s: Text, i: nat, w: string)
    requires At(s, i, w) && Spaces(w) && i + |w| < |s| && s[i + |w|] == ':'
    ensures i < |s| && !IsTagChar(s[i])
  {
    if w != "" { assert s[i] == w[0]; }
  }

  /** GetKey on a key, quoted or bare. */
  lemma GetKeySpelled(s: Text, i: nat, p: DocPair)
    requires KeyOk(p.key) && DocOk(p.value) && Spaces(p.afterKey) && PairStands(s, i, p)
    ensures GetKey(s, i) == Some(KeyName(p.key))
  {
    hide Spell, DocOk, At, Spaces, GetString, SpellPieces, Decoded, PiecesOk, TagEnd;
    match p.key
    case Quoted(ps) => GetStringSpelled(s, i, ps);
    case Tag(name) => TagRead(s, i, name, p.afterKey);
  }

  lemma {:induction false} TrimToWord(s: Text, lo: nat, w: nat, hi: nat)
    requires lo < w <= hi <= |s| && !IsSpace(s[w - 1])
    requires forall k :: w <= k < hi ==> IsSpace(s[k])
    ensures TrimEnd(s, lo, hi) == w
    decreases hi
  {
    if hi > w { TrimToWord(s, lo, w, hi - 1); }
  }

  lemma NumberRead(s: Text, i: nat, d: Doc)
    requires Placed(s, i, d) && d.DNumber?
    ensures i < |s| && IsNumStart(s[i]) && GetJSON(s, i) == Some(d.token)
  {
    hide At, Spaces, Ends, Skip;
    var e := i + |d.token|;
    AtConcat(s, i, d.token, d.after);
    WordRuns(s, i, d.token);
    EndsAfterSpaces(s, e, d.after);
    SkipSpelled(s, i, d);
    GapIsSpaces(s, e, d.after);
    LastOfWord(s, i, d.token);
    TrimToWord(s, i, e, e + |d.after|);
    SliceAt(s, i, d.token);
  }

  lemma GapIsSpaces(s: Text, i: nat, w: string)
    requires Gap(s, i, w)
    ensures i + |w| <= |s| && forall k :: i <= k < i + |w| ==> IsSpace(s[k])
  {
    forall k | i <= k < i + |w| ensures IsSpace(s[k]) { assert s[k] == w[k - i]; }
  }

  lemma LastOfWord(s: Text, i: nat, w: string)
    requires IsWord(w) && At(s, i, w)
    ensures !IsSpace(s[i + |w| - 1])
  {
    assert s[i + |w| - 1] == w[|w| - 1];
  }

  lemma BoolRead(s: Text, i: nat, b: bool, after: string)
    requires At(s, i, if b then "true" else "false")
    requires WordStops(s, i + |if b then "true" else "false"|)
    ensures i < |s| && s[i] == (if b then 't' else 'f') && GetBool(s, i) == Some(b)
  {
    var w := if b then "true" else "false";
    assert s[i] == w[0];
    SliceAt(s, i, w);
  }

  lemma ReadQuoted(s: Text, i: nat, ps: seq<Piece>)
    requires PiecesOk(ps) && At(s, i, StringText(ps))
    ensures ReadValue(s, i) == Ok(JString(Decoded(ps)))
  {
    hide GetString, Decoded, PiecesOk, At, StringText;
    GetStringSpelled(s, i, ps);
  }

  lemma WordTree(d: Doc)
    requires DocOk(d) && !d.DObject? && !d.DArray? && !d.DString?
    ensures IsWord(Token(d)) && Spaces(d.after)
    ensures var w := Token(d);
            Tree(d) == if w[0] == 'n' then JNull
                       else if IsNumStart(w[0]) then JNumber(w)
                       else JBool(Keyword(w, "true"))
    ensures var w := Token(d);
            w[0] == 'n' || IsNumStart(w[0]) || Keyword(w, "true") || Keyword(w, "false")
  {
  }

  lemma ReadScalar(s: Text, i: nat, d: Doc)
    requires Placed(s, i, d) && !d.DObject? && !d.DArray?
    ensures ReadValue(s, i) == Ok(Tree(d))
  {
    hide ReadValue, Ends, Spaces, Decoded, PiecesOk, At, StringText, Keyword;
    AtConcat(s, i, Token(d), d.after);
    if d.DString? {
      ReadQuoted(s, i, d.pieces);
    } else {
      hide Tree;
      WordTree(d);
      ReadWord(s, i, Token(d), d.after);
    }
  }

  lemma FirstByte(s: Text, i: nat, w: string)
    requires At(s, i, w) && w != ""
    ensures i < |s| && s[i] == w[0]
  {
    assert s[i] == w[0];
  }

  // ---- enumerating -------------------------------------------------------

  /** The last byte test of ObjectNext and ArrayNext, and the state they move to. */
  lemma SepSkip(s: Text, sep: nat, there: bool, w: string, next: nat)
    requires Separated(s, sep, there, w, next) && Spaces(w)
    ensures sep < |s| && next < |s|
    ensures there ==> s[sep] == ',' && Skip(s, sep) == next
    ensures !there ==> sep == next
  {
    hide Skip, SkipItem;
    SeparatedEnds(s, sep, there, w, next);
    SkipIsSkipItem(s, sep);
  }

  lemma ObjectNextFrom(s: Text, i: nat, colon: nat, value: nat, sep: nat, there: bool, next: nat)
    requires StartsKey(s, i) && Skip(s, i) == colon < |s| && s[colon] == ':'
    requires Skip(s, colon) == value && Skip(s, value) == sep < |s|
    requires if there then s[sep] == ',' && Skip(s, sep) == next else s[sep] == '}' && sep == next
    ensures ObjectNext(s, i) == Member(next, i, value)
  {
    hide Skip;
  }

  /** ObjectNext at the first member of any object's members: it reports the key and
      the value, and moves behind the comma and all spaces, to the next key or to the
      closing brace; a comma before the brace changes nothing. */
  lemma NextMember(s: Text, i: nat, pairs: seq<DocPair>, comma: bool, close: string)
    requires pairs != [] && DocPairsOk(pairs) && At(s, i, SpellPairs(pairs, comma, close))
    ensures KeyOk(pairs[0].key) && DocOk(pairs[0].value) && Spaces(pairs[0].afterKey)
    ensures ObjectNext(s, i) == Member(NextPair(i, pairs, comma), i, ValueAt(i, pairs[0]))
    ensures PairStands(s, i, pairs[0]) && Placed(s, ValueAt(i, pairs[0]), pairs[0].value)
    ensures i < ValueAt(i, pairs[0]) < NextPair(i, pairs, comma) < |s|
    ensures At(s, NextPair(i, pairs, comma), SpellPairs(pairs[1..], comma, close))
  {
    hide *;
    var p := pairs[0];
    HeadOk(pairs);
    PairsParts(s, i, pairs, comma, close);
    PlacedPair(s, i, pairs, comma, close);
    var value, next := ValueAt(i, p), NextPair(i, pairs, comma);
    PairsStart(s, next, pairs[1..], comma, close);
    SkipSpelled(s, value, p.value);
    NoCommaIsLast(pairs, comma);
    MemberNext(s, i, pairs, comma);
    assert i < value < next by { ObjectNextAdvances(s, i, next, value); }
  }

  lemma NoCommaIsLast(pairs: seq<DocPair>, comma: bool)
    requires pairs != []
    ensures !CommaAfter(|pairs|, comma) ==> pairs[1..] == []
  {
  }

  lemma ObjectNextAdvances(s: Text, i: nat, next: nat, value: nat)
    requires ObjectNext(s, i) == Member(next, i, value) && next < |s|
    ensures i < value < next
  {
  }

  lemma MemberNext(s: Text, i: nat, pairs: seq<DocPair>, comma: bool)
    requires pairs != [] && DocPairsOk(pairs) && KeyOk(pairs[0].key) && DocOk(pairs[0].value)
    requires PairStands(s, i, pairs[0])
    requires Separated(s, PairSep(i, pairs[0]), CommaAfter(|pairs|, comma), pairs[0].afterComma, NextPair(i, pairs,
                       comma))
    requires Skip(s, ValueAt(i, pairs[0])) == ValueAt(i, pairs[0]) + |Spell(pairs[0].value)|
    requires !CommaAfter(|pairs|, comma) ==> NextPair(i, pairs, comma) < |s| && s[NextPair(i, pairs, comma)] == '}'
    ensures ObjectNext(s, i) == Member(NextPair(i, pairs, comma), i, ValueAt(i, pairs[0]))
    ensures NextPair(i, pairs, comma) < |s|
  {
    hide Skip, SkipItem, ObjectNext, Spell, KeyText, DocOk, KeyOk, At, Spaces, DocPairsOk, Separated;
    HeadOk(pairs);
    var p, there := pairs[0], CommaAfter(|pairs|, comma);
    SkipKey(s, i, p);
    SkipIsSkipItem(s, i);
    SkipIsSkipItem(s, ColonAt(i, p));
    SepSkip(s, PairSep(i, p), there, p.afterComma, NextPair(i, pairs, comma));
    ObjectNextFrom(s, i, ColonAt(i, p), ValueAt(i, p), PairSep(i, p), there, NextPair(i, pairs, comma));
  }

  lemma ArrayNextFrom(s: Text, i: nat, sep: nat, there: bool, next: nat)
    requires StartsValue(s, i) && Skip(s, i) == sep < |s|
    requires if there then s[sep] == ',' && Skip(s, sep) == next else s[sep] == ']' && sep == next
    ensures ArrayNext(s, i) == Element(next, i)
  {
    hide Skip;
  }

  /** ArrayNext at the first element of any array's elements. */
  lemma NextElement(s: Text, i: nat, items: seq<DocItem>, comma: bool, close: string)
    requires items != [] && DocItemsOk(items) && At(s, i, SpellItems(items, comma, close))
    ensures DocOk(items[0].value) && Placed(s, i, items[0].value)
    ensures ArrayNext(s, i) == Element(NextItem(i, items, comma), i)
    ensures i < NextItem(i, items, comma) < |s|
    ensures At(s, NextItem(i, items, comma), SpellItems(items[1..], comma, close))
  {
    hide Skip, ArrayNext, Spell, SpellItems, DocOk, DocItemsOk, At, Spaces, Separated, Placed;
    ItemHeadOk(items);
    ItemsParts(s, i, items, comma, close);
    PlacedItem(s, i, items, comma, close);
    var next := NextItem(i, items, comma);
    ItemsStart(s, next, items[1..], comma, close);
    SkipSpelled(s, i, items[0].value);
    SepSkip(s, ItemSep(i, items), CommaAfter(|items|, comma), items[0].afterComma, next);
    ArrayNextFrom(s, i, ItemSep(i, items), CommaAfter(|items|, comma), next);
  }

  /** EnumInit moves behind the opener and its spaces, to the first member, key or
      element, or to the closer. */
  lemma EnumInitAt(s: Text, i: nat, opener: char, w: string)
    requires i < |s| && s[i] == opener && IsOpener(opener)
    requires Gap(s, i + 1, w) && i + 1 + |w| < |s|
    ensures EnumInit(s, i, opener) == i + 1 + |w|
  {
    hide Gap;
    SkipGap(s, i + 1, w);
  }

  // ---- reading -----------------------------------------------------------

  lemma ReadPairsCons(s: Text, i: nat)
    ensures var m := ObjectNext(s, i);
            m.next < |s| ==>
              var v, k, rest := ReadValue(s, m.value), GetKey(s, m.key), ReadPairs(s, m.next);
              v.Ok? && k.Some? && rest.Ok? ==>
                ReadPairs(s, i) == Ok([JSPair(CStr(k.value), v.value)] + rest.value)
  {
    hide ObjectNext, ReadValue, GetKey;
  }

  lemma ReadItemsCons(s: Text, i: nat)
    ensures var e := ArrayNext(s, i);
            e.next < |s| ==>
              var v, rest := ReadValue(s, e.value), ReadItems(s, e.next);
              v.Ok? && rest.Ok? ==> ReadItems(s, i) == Ok([v.value] + rest.value)
  {
    hide ArrayNext, ReadValue;
  }

  lemma ReadContainer(s: Text, i: nat, w: string)
    requires i < |s| && IsOpener(s[i]) && Gap(s, i + 1, w) && i + 1 + |w| < |s|
    ensures var st := i + 1 + |w|;
            && (s[i] == '{' && ReadPairs(s, st).Ok? ==> ReadValue(s, i) == Ok(JObject(ReadPairs(s, st).value)))
            && (s[i] == '[' && ReadItems(s, st).Ok? ==> ReadValue(s, i) == Ok(JArray(ReadItems(s, st).value)))
  {
    hide ReadPairs, ReadItems, Gap;
    EnumInitAt(s, i, s[i], w);
  }

  /** Reading a value in any layout, embedded anywhere, gives the tree it stands for:
      pairs and elements in order, with duplicate keys kept, whatever spaces follow
      each token, with or without a comma before a closer, however strings and keys
      are spelled. */
  lemma {:induction false} ReadSpelled(s: Text, i: nat, d: Doc)
    requires Placed(s, i, d)
    ensures ReadValue(s, i) == Ok(Tree(d))
    decreases d, 2
  {
    hide ReadValue, ReadPairs, ReadItems, At, Ends, Spaces, SpellPairs, SpellItems, TreePairs, TreeItems,
         DocPairsOk, DocItemsOk;
    match d
    case DObject(open, pairs, comma, close) =>
      var st := i + 1 + |open|;
      OpenerAt(s, i, '{', open, SpellPairs(pairs, comma, close));
      PairsStart(s, st, pairs, comma, close);
      ReadSpelledPairs(s, st, pairs, comma, close);
      ReadContainer(s, i, open);
    case DArray(open, items, comma, close) =>
      var st := i + 1 + |open|;
      OpenerAt(s, i, '[', open, SpellItems(items, comma, close));
      ItemsStart(s, st, items, comma, close);
      ReadSpelledItems(s, st, items, comma, close);
      ReadContainer(s, i, open);
    case _ => ReadScalar(s, i, d);
  }

  lemma NoMember(s: Text, i: nat)
    requires i < |s| && s[i] == '}'
    ensures ObjectNext(s, i).next >= |s|
  {
  }

  lemma NoElement(s: Text, i: nat)
    requires i < |s| && s[i] == ']'
    ensures ArrayNext(s, i).next >= |s|
  {
  }

  lemma ReadNoPairs(s: Text, i: nat, comma: bool, close: string)
    requires At(s, i, SpellPairs([], comma, close))
    ensures ReadPairs(s, i) == Ok(TreePairs([]))
  {
    hide ReadValue, GetKey, ObjectNext;
    PairsStart(s, i, [], comma, close);
    NoMember(s, i);
  }

  lemma ReadNoItems(s: Text, i: nat, comma: bool, close: string)
    requires At(s, i, SpellItems([], comma, close))
    ensures ReadItems(s, i) == Ok(TreeItems([]))
  {
    hide ReadValue, ArrayNext;
    ItemsStart(s, i, [], comma, close);
    NoElement(s, i);
  }

  lemma TreePairsCons(pairs: seq<DocPair>)
    requires pairs != [] && DocPairsOk(pairs) && KeyOk(pairs[0].key) && DocOk(pairs[0].value)
             && DocPairsOk(pairs[1..])
    ensures TreePairs(pairs) == [JSPair(CStr(KeyName(pairs[0].key)), Tree(pairs[0].value))] + TreePairs(pairs[1..])
  {
  }

  lemma TreeItemsCons(items: seq<DocItem>)
    requires items != [] && DocItemsOk(items) && DocOk(items[0].value) && DocItemsOk(items[1..])
    ensures TreeItems(items) == [Tree(items[0].value)] + TreeItems(items[1..])
  {
  }

  lemma {:induction false} ReadSpelledPairs(s: Text, i: nat, pairs: seq<DocPair>, comma: bool, close: string)
    requires DocPairsOk(pairs) && At(s, i, SpellPairs(pairs, comma, close))
    ensures ReadPairs(s, i) == Ok(TreePairs(pairs))
    decreases pairs, 1
  {
    hide *;
    if pairs == [] {
      ReadNoPairs(s, i, comma, close);
    } else {
      var p, m := pairs[0], ObjectNext(s, i);
      HeadOk(pairs);
      NextMember(s, i, pairs, comma, close);
      GetKeySpelled(s, i, p);
      ReadSpelled(s, m.value, p.value);
      ReadSpelledPairs(s, m.next, pairs[1..], comma, close);
      ReadPairsCons(s, i);
      TreePairsCons(pairs);
    }
  }

  lemma {:induction false} ReadSpelledItems(s: Text, i: nat, items: seq<DocItem>, comma: bool, close: string)
    requires DocItemsOk(items) && At(s, i, SpellItems(items, comma, close))
    ensures ReadItems(s, i) == Ok(TreeItems(items))
    decreases items, 1
  {
    hide *;
    if items == [] {
      ReadNoItems(s, i, comma, close);
    } else {
      ItemHeadOk(items);
      NextElement(s, i, items, comma, close);
      ReadSpelled(s, i, items[0].value);
      ReadSpelledItems(s, ArrayNext(s, i).next, items[1..], comma, close);
      ReadItemsCons(s, i);
      TreeItemsCons(items);
    }
  }

  /** Reading a printed tree gives the tree back with every string and key cut at its
      first NUL. */
  lemma ReadPrinted(s: Text, i: nat, t: JSValue)
    requires NumbersOk(t) && At(s, i, Print(t)) && Ends(s, i + |Print(t)|)
    ensures ReadValue(s, i) == Ok(Cut(t))
  {
    hide Spell, Print, Placed, Tree, Cut, ReadValue;
    PlacedPrinted(s, i, t);
    ReadSpelled(s, i, LayoutOf(t));
  }

  /** A whole text: any document, read from its first byte, is its tree; behind
      leading spaces it is refused, since reading starts at offset 0 and the type is
      told by the byte there. */
  lemma ReadText(w: string, d: Doc)
    requires DocOk(d) && Spaces(w) && |w + Spell(d)| < 0x8000_0000
    ensures ReadValue(w + Spell(d), 0) == if w == "" then Ok(Tree(d)) else Err(EINVAL)
  {
    hide Spell, Tree;
    var s := w + Spell(d);
    if w == "" {
      assert s == Spell(d);
      ReadSpelled(s, 0, d);
    } else {
      assert s[0] == w[0];
    }
  }

  // ---- words that are no literals ----------------------------------------

  /** `w` is the keyword, or goes on behind it with an underscore. */
  predicate Keyword(w: string, k: string)
  {
    |w| >= |k| && w[..|k|] == k && (|w| > |k| ==> w[|k|] == '_')
  }

  lemma BoolOfWord(s: Text, i: nat, w: string)
    requires IsWord(w) && At(s, i, w) && WordStops(s, i + |w|) && (w[0] == 't' || w[0] == 'f')
    ensures s[i] == w[0]
    ensures GetBool(s, i) == if Keyword(w, "true") then Some(true)
                             else if Keyword(w, "false") then Some(false)
                             else None
  {
    hide At, IsWord;
    WordRuns(s, i, w);
    SliceAt(s, i, w);
    BoolSlice(s, i, w, "true");
    BoolSlice(s, i, w, "false");
    var n := if w[0] == 't' then 4 else 5;
    if |w| > n { assert w[n] == s[i..i + |w|][n]; }
  }

  /** Whether a keyword stands at `i`: only if the word is long enough for it. */
  lemma BoolSlice(s: Text, i: nat, w: string, k: string)
    requires i + |w| <= |s| && s[i..i + |w|] == w && WordStops(s, i + |w|) && (k == "true" || k == "false")
    ensures i + |k| <= |s| && s[i..i + |k|] == k <==> |w| >= |k| && w[..|k|] == k
  {
    if |w| >= |k| {
      assert s[i..i + |w|][..|k|] == s[i..i + |k|];
    } else {
      assert IsWordNonBegin(k[|w|]);
      assert i + |k| <= |s| ==> s[i..i + |k|][|w|] == s[i + |w|];
    }
  }

  /** What any single word is read as, valid JSON or not: null needs only its first
      letter, true and false may run on with an underscore, and whatever starts like a
      number is a number's token. */
  lemma ReadWord(s: Text, i: nat, w: string, sp: string)
    requires IsWord(w) && At(s, i, w)
    requires At(s, i + |w|, sp) && Spaces(sp) && Ends(s, i + |w| + |sp|)
    ensures ReadValue(s, i) ==
              if w[0] == 'n' then Ok(JNull)
              else if IsNumStart(w[0]) then Ok(JNumber(w))
              else if Keyword(w, "true") then Ok(JBool(true))
              else if Keyword(w, "false") then Ok(JBool(false))
              else Err(if w[0] == 't' || w[0] == 'f' then EPARSER else EINVAL)
  {
    hide At, Spaces, Ends, GetBool, GetJSON, Keyword;
    FirstByte(s, i, w);
    EndsAfterSpaces(s, i + |w|, sp);
    if IsNumStart(w[0]) {
      AtConcat(s, i, w, sp);
      NumberRead(s, i, DNumber(w, sp));
    } else if w[0] == 't' || w[0] == 'f' {
      BoolOfWord(s, i, w);
    } else {
      NoKeyword(w);
    }
  }

  lemma NoKeyword(w: string)
    requires w != "" && w[0] != 't' && w[0] != 'f'
    ensures !Keyword(w, "true") && !Keyword(w, "false")
  {
    if |w| >= 4 { assert w[0] == w[..4][0]; }
    if |w| >= 5 { assert w[0] == w[..5][0]; }
  }

  /** Two words that are no JSON. */
  lemma WordsTaken()
    ensures ReadValue("nope", 0) == Ok(JNull) && ReadValue("true_", 0) == Ok(JBool(true))
  {
    hide ReadValue;
    ReadWord("nope", 0, "nope", "");
    ReadWord("true_", 0, "true_", "");
  }

  // ---- broken containers -------------------------------------------------

  /** Members, each with a comma behind it, and no closer. */
  function Members(pairs: seq<DocPair>): string
    requires DocPairsOk(pairs)
  {
    if pairs == [] then ""
    else
      var p := pairs[0];
      KeyText(p.key) + (p.afterKey + (":" + (p.afterColon + (Spell(p.value)
        + (Comma(true, p.afterComma) + Members(pairs[1..]))))))
  }

  lemma MembersStart(s: Text, i: nat, pairs: seq<DocPair>)
    requires DocPairsOk(pairs) && pairs != [] && At(s, i, Members(pairs))
    ensures i < |s| && !IsSpace(s[i])
  {
    hide Spell, KeyText, KeyOk, DocOk;
    HeadOk(pairs);
    PairParts(s, i, pairs[0], Comma(true, pairs[0].afterComma) + Members(pairs[1..]));
  }

  /** The first of them, with a byte behind its comma that is no space. */
  lemma MembersParts(s: Text, i: nat, pairs: seq<DocPair>)
    requires DocPairsOk(pairs) && pairs != [] && At(s, i, Members(pairs))
    requires i + |Members(pairs)| < |s| && !IsSpace(s[i + |Members(pairs)|])
    ensures KeyOk(pairs[0].key) && DocOk(pairs[0].value) && PairStands(s, i, pairs[0])
    ensures Separated(s, PairSep(i, pairs[0]), true, pairs[0].afterComma, NextPair(i, pairs, true))
    ensures At(s, NextPair(i, pairs, true), Members(pairs[1..]))
    ensures i + |Members(pairs)| == NextPair(i, pairs, true) + |Members(pairs[1..])|
  {
    hide Spell, KeyText, KeyOk, DocOk, At, PairStands, IsSpace, DocPairsOk;
    HeadOk(pairs);
    var w, rest := pairs[0].afterComma, Members(pairs[1..]);
    PairParts(s, i, pairs[0], Comma(true, w) + rest);
    CommaParts(s, PairSep(i, pairs[0]), true, w, rest);
    if pairs[1..] == [] { NoMembers(); } else { MembersStart(s, NextPair(i, pairs, true), pairs[1..]); }
  }

  lemma NoMembers()
    ensures Members([]) == ""
  {
  }

  lemma EndReads(s: Text, j: nat)
    requires ObjectNext(s, j).next >= |s|
    ensures ReadPairs(s, j) == Ok(TreePairs([]))
  {
    hide ReadValue, GetKey, ObjectNext;
  }

  lemma NextOfMembers(s: Text, i: nat, pairs: seq<DocPair>)
    requires DocPairsOk(pairs) && pairs != [] && At(s, i, Members(pairs))
    requires i + |Members(pairs)| < |s| && !IsSpace(s[i + |Members(pairs)|])
    ensures KeyOk(pairs[0].key) && DocOk(pairs[0].value) && Spaces(pairs[0].afterKey) && PairStands(s, i, pairs[0])
    ensures Placed(s, ValueAt(i, pairs[0]), pairs[0].value)
    ensures ObjectNext(s, i) == Member(NextPair(i, pairs, true), i, ValueAt(i, pairs[0]))
    ensures i < ValueAt(i, pairs[0]) < NextPair(i, pairs, true) < |s|
    ensures At(s, NextPair(i, pairs, true), Members(pairs[1..]))
    ensures i + |Members(pairs)| == NextPair(i, pairs, true) + |Members(pairs[1..])|
  {
    hide Spell, Members, DocOk, At, KeyOk, Spaces, Separated, Placed, ValueAt, DocPairsOk, ObjectNext, Skip, Behind;
    HeadOk(pairs);
    MembersParts(s, i, pairs);
    var value, next := ValueAt(i, pairs[0]), NextPair(i, pairs, true);
    ValuePlaced(s, i, pairs);
    SkipSpelled(s, value, pairs[0].value);
    hide PairStands, NextPair;
    MemberNext(s, i, pairs, true);
    ObjectNextAdvances(s, i, next, value);
  }

  lemma ValuePlaced(s: Text, i: nat, pairs: seq<DocPair>)
    requires pairs != [] && KeyOk(pairs[0].key) && DocOk(pairs[0].value) && PairStands(s, i, pairs[0])
    requires Separated(s, PairSep(i, pairs[0]), true, pairs[0].afterComma, NextPair(i, pairs, true))
    requires Spaces(pairs[0].afterComma)
    ensures Placed(s, ValueAt(i, pairs[0]), pairs[0].value)
  {
    hide Spell, DocOk, At, KeyOk, Spaces, Separated, Placed, ValueAt, Behind;
    PlacedBefore(s, ValueAt(i, pairs[0]), pairs[0].value, true, pairs[0].afterComma, NextPair(i, pairs, true));
  }

  /** An object is read up to its first broken member and no further, without an error:
      behind complete members, where ObjectNext fails, the rest is dropped. */
  lemma {:induction false} BrokenMemberEnds(s: Text, i: nat, pairs: seq<DocPair>)
    requires DocPairsOk(pairs) && At(s, i, Members(pairs))
    requires var j := i + |Members(pairs)|; j < |s| && !IsSpace(s[j]) && ObjectNext(s, j).next >= |s|
    ensures ReadPairs(s, i) == Ok(TreePairs(pairs))
    decreases pairs
  {
    hide *;
    if pairs == [] {
      NoMembers();
      EndReads(s, i);
    } else {
      var m := ObjectNext(s, i);
      HeadOk(pairs);
      NextOfMembers(s, i, pairs);
      GetKeySpelled(s, i, pairs[0]);
      ReadSpelled(s, m.value, pairs[0].value);
      BrokenMemberEnds(s, m.next, pairs[1..]);
      ReadPairsCons(s, i);
      TreePairsCons(pairs);
    }
  }

  /** ... so the object as a whole. */
  lemma ReadBroken(s: Text, i: nat, open: string, pairs: seq<DocPair>)
    requires DocPairsOk(pairs) && Spaces(open) && At(s, i, "{" + (open + Members(pairs)))
    requires var j := i + 1 + |open| + |Members(pairs)|; j < |s| && !IsSpace(s[j]) && ObjectNext(s, j).next >= |s|
    ensures ReadValue(s, i) == Ok(JObject(TreePairs(pairs)))
  {
    hide ReadValue, ReadPairs, Members, TreePairs, ObjectNext, DocPairsOk;
    var st := i + 1 + |open|;
    OpenerAt(s, i, '{', open, Members(pairs));
    if pairs == [] { NoMembers(); } else { MembersStart(s, st, pairs); }
    BrokenMemberEnds(s, st, pairs);
    ReadContainer(s, i, open);
  }

  /** A key without a value: the member before it is all that is read. */
  lemma BrokenRead()
    ensures ReadValue("{a:1,b}", 0) == Ok(JObject([JSPair("a", JNumber("1"))]))
  {
    hide ReadValue, ObjectNext;
    var s: Text, pairs := "{a:1,b}", [DocPair(Tag("a"), "", "", DNumber("1", ""), "")];
    assert pairs[1..] == [];
    assert Members(pairs) == "a:1,";
    CStrOfNulFree("a");
    assert TreePairs(pairs) == [JSPair("a", JNumber("1"))];
    assert "{" + ("" + Members(pairs)) == "{a:1,";
    NoValueThere();
    ReadBroken(s, 0, "", pairs);
  }

  lemma NoValueThere()
    ensures ObjectNext("{a:1,b}", 5).next >= 7
  {
    hide SkipItem, SkipGroup;
    var s: Text := "{a:1,b}";
    assert WordEnd(s, 6) == 6;
    assert Skip(s, 5) == 6;
    assert Skip(s, 6) == 7;
  }

  /** Elements, each with a comma behind it, and no closer. */
  function Elements(items: seq<DocItem>): string
    requires DocItemsOk(items)
  {
    if items == [] then ""
    else Spell(items[0].value) + (Comma(true, items[0].afterComma) + Elements(items[1..]))
  }

  lemma NoElements()
    ensures Elements([]) == ""
  {
  }

  lemma ElementsStart(s: Text, i: nat, items: seq<DocItem>)
    requires DocItemsOk(items) && items != [] && At(s, i, Elements(items))
    ensures StartsValue(s, i) && DocOk(items[0].value) && At(s, i, Spell(items[0].value))
    ensures At(s, i + |Spell(items[0].value)|, Comma(true, items[0].afterComma) + Elements(items[1..]))
  {
    hide Spell, DocOk;
    ItemHeadOk(items);
    AtConcat(s, i, Spell(items[0].value), Comma(true, items[0].afterComma) + Elements(items[1..]));
    DocStart(s, i, items[0].value);
  }

  lemma ElementsParts(s: Text, i: nat, items: seq<DocItem>)
    requires DocItemsOk(items) && items != [] && At(s, i, Elements(items))
    requires i + |Elements(items)| < |s| && !IsSpace(s[i + |Elements(items)|])
    ensures DocOk(items[0].value) && StartsValue(s, i) && At(s, i, Spell(items[0].value))
    ensures Separated(s, ItemSep(i, items), true, items[0].afterComma, NextItem(i, items, true))
    ensures At(s, NextItem(i, items, true), Elements(items[1..]))
    ensures i + |Elements(items)| == NextItem(i, items, true) + |Elements(items[1..])|
  {
    hide Spell, DocOk, DocItemsOk, At, IsSpace, Comma, Separated, Elements;
    ItemHeadOk(items);
    ElementsStart(s, i, items);
    ElementsLength(items);
    var w, rest := items[0].afterComma, Elements(items[1..]);
    CommaParts(s, ItemSep(i, items), true, w, rest);
    if items[1..] == [] { NoElements(); } else { StartNoSpace(s, NextItem(i, items, true), items[1..]); }
    Separates(s, ItemSep(i, items), true, w, rest);
  }

  lemma ElementsLength(items: seq<DocItem>)
    requires DocItemsOk(items) && items != [] && DocOk(items[0].value) && DocItemsOk(items[1..])
    ensures |Elements(items)| ==
              |Spell(items[0].value)| + |Comma(true, items[0].afterComma)| + |Elements(items[1..])|
  {
    hide Spell, Comma;
  }

  lemma NextOfElements(s: Text, i: nat, items: seq<DocItem>)
    requires DocItemsOk(items) && items != [] && At(s, i, Elements(items))
    requires i + |Elements(items)| < |s| && !IsSpace(s[i + |Elements(items)|])
    ensures DocOk(items[0].value) && Placed(s, i, items[0].value)
    ensures ArrayNext(s, i) == Element(NextItem(i, items, true), i)
    ensures i < NextItem(i, items, true) < |s|
    ensures At(s, NextItem(i, items, true), Elements(items[1..]))
    ensures i + |Elements(items)| == NextItem(i, items, true) + |Elements(items[1..])|
  {
    hide Spell, DocOk, At, Spaces, Placed, DocItemsOk, ArrayNext, Skip, IsSpace, Elements, Separated, Behind,
         StartsValue;
    ItemHeadOk(items);
    ElementsParts(s, i, items);
    var w, next := items[0].afterComma, NextItem(i, items, true);
    PlacedBefore(s, i, items[0].value, true, w, next);
    SkipSpelled(s, i, items[0].value);
    SepSkip(s, ItemSep(i, items), true, w, next);
    ArrayNextFrom(s, i, ItemSep(i, items), true, next);
    ArrayNextAdvances(s, i, next);
  }

  lemma ArrayNextAdvances(s: Text, i: nat, next: nat)
    requires ArrayNext(s, i) == Element(next, i) && next < |s|
    ensures i < next
  {
  }

  lemma StartNoSpace(s: Text, i: nat, items: seq<DocItem>)
    requires DocItemsOk(items) && items != [] && At(s, i, Elements(items))
    ensures i < |s| && !IsSpace(s[i])
  {
    hide Elements, Spell;
    ElementsStart(s, i, items);
  }

  lemma EndReadsItems(s: Text, j: nat)
    requires ArrayNext(s, j).next >= |s|
    ensures ReadItems(s, j) == Ok(TreeItems([]))
  {
    hide ReadValue, ArrayNext;
  }

  /** Likewise an array, up to its first broken element. */
  lemma {:induction false} BrokenElementEnds(s: Text, i: nat, items: seq<DocItem>)
    requires DocItemsOk(items) && At(s, i, Elements(items))
    requires var j := i + |Elements(items)|; j < |s| && !IsSpace(s[j]) && ArrayNext(s, j).next >= |s|
    ensures ReadItems(s, i) == Ok(TreeItems(items))
    decreases items
  {
    hide *;
    if items == [] {
      NoElements();
      EndReadsItems(s, i);
    } else {
      ItemHeadOk(items);
      NextOfElements(s, i, items);
      ReadSpelled(s, i, items[0].value);
      BrokenElementEnds(s, ArrayNext(s, i).next, items[1..]);
      ReadItemsCons(s, i);
      TreeItemsCons(items);
    }
  }

  // ---- what ReadValue produces is printable ------------------------------

  lemma {:induction false} WordEndChars(s: Text, j: nat)
    requires j <= |s|
    ensures forall k :: j <= k < WordEnd(s, j) ==> IsWordNonBegin(s[k])
    decreases |s| - j
  {
    if j < |s| && IsWordNonBegin(s[j]) { WordEndChars(s, j + 1); }
  }

  lemma {:induction false} SpaceEndSpaces(s: Text, j: nat)
    requires j <= |s|
    ensures forall k :: j <= k < SpaceEnd(s, j) ==> IsSpace(s[k])
    decreases |s| - j
  {
    if j < |s| && IsSpace(s[j]) { SpaceEndSpaces(s, j + 1); }
  }

  /** The token read for a number starts like one and is a single word. */
  lemma NumberTokenRead(s: Text, id: nat)
    requires id < |s| && IsNumStart(s[id])
    ensures GetJSON(s, id).Some? && NumberToken(GetJSON(s, id).value)
  {
    var w := WordEnd(s, id + 1);
    WordEndChars(s, id + 1);
    SpaceEndSpaces(s, w);
    TrimToWord(s, id, w, SpaceEnd(s, w));
    assert Skip(s, id) == SpaceEnd(s, w);
  }

  lemma {:induction false} ReadIsPrintable(s: Text, id: nat)
    ensures ReadValue(s, id).Ok? ==> NumbersOk(ReadValue(s, id).value)
    decreases |s| - id, 0
  {
    if id < |s| {
      if s[id] == '{' {
        var st := EnumInit(s, id, '{');
        if st != ERROR { ReadPairsPrintable(s, st); }
      } else if s[id] == '[' {
        var st := EnumInit(s, id, '[');
        if st != ERROR { ReadItemsPrintable(s, st); }
      } else if IsNumStart(s[id]) {
        NumberTokenRead(s, id);
      }
    }
  }

  lemma {:induction false} ReadPairsPrintable(s: Text, st: nat)
    ensures ReadPairs(s, st).Ok? ==> PairsOk(ReadPairs(s, st).value)
    decreases |s| - st, 1
  {
    var m := ObjectNext(s, st);
    if m.next < |s| {
      ReadIsPrintable(s, m.value);
      ReadPairsPrintable(s, m.next);
    }
  }

  lemma {:induction false} ReadItemsPrintable(s: Text, st: nat)
    ensures ReadItems(s, st).Ok? ==> ItemsOk(ReadItems(s, st).value)
    decreases |s| - st, 1
  {
    var e := ArrayNext(s, st);
    if e.next < |s| {
      ReadIsPrintable(s, e.value);
      ReadItemsPrintable(s, e.next);
    }
  }

  /** Keys are C strings in every tree that is read. */
  lemma {:induction false} KeysReadNulFree(s: Text, id: nat)
    ensures ReadValue(s, id).Ok? ==> KeysNulFree(ReadValue(s, id).value)
    decreases |s| - id, 0
  {
    hide GetString, GetJSON, GetBool, Skip;
    if id < |s| {
      if s[id] == '{' {
        var st := EnumInit(s, id, '{');
        if st != ERROR { PairKeysReadNulFree(s, st); }
      } else if s[id] == '[' {
        var st := EnumInit(s, id, '[');
        if st != ERROR { ItemKeysReadNulFree(s, st); }
      }
    }
  }

  lemma {:induction false} PairKeysReadNulFree(s: Text, st: nat)
    ensures ReadPairs(s, st).Ok? ==> PairKeysNulFree(ReadPairs(s, st).value)
    decreases |s| - st, 1
  {
    hide ObjectNext, GetKey, ReadValue, KeysNulFree, CStr;
    var m := ObjectNext(s, st);
    if m.next < |s| {
      KeysReadNulFree(s, m.value);
      PairKeysReadNulFree(s, m.next);
    }
  }

  lemma {:induction false} ItemKeysReadNulFree(s: Text, st: nat)
    ensures ReadItems(s, st).Ok? ==> ItemKeysNulFree(ReadItems(s, st).value)
    decreases |s| - st, 1
  {
    hide ArrayNext, ReadValue, KeysNulFree;
    var e := ArrayNext(s, st);
    if e.next < |s| {
      KeysReadNulFree(s, e.value);
      ItemKeysReadNulFree(s, e.next);
    }
  }

  // ---- the round trips ---------------------------------------------------

  /** Parsing what was printed gives the tree back, cut at NULs; so it gives the
      very tree exactly when no string or key holds a NUL. */
  lemma ParsePrint(t: JSValue)
    requires NumbersOk(t) && |Print(t)| < 0x8000_0000
    ensures ReadValue(Print(t), 0) == Ok(Cut(t))
    ensures ReadValue(Print(t), 0) == Ok(t) <==> NulFree(t)
  {
    ReadPrinted(Print(t), 0, t);
    CutIsIdentity(t);
  }

  /** Parse, print, parse: for any bytes that parse to some tree `t`, printing `t`
      and parsing again gives `t` cut at NULs, hence `t` itself exactly when no
      string in it holds a NUL.  A NUL in a key of the text is no obstacle: the key
      is cut there by the first parse already. */
  lemma ParsePrintParse(s: Text, id: nat)
    requires ReadValue(s, id).Ok? && |Print(ReadValue(s, id).value)| < 0x8000_0000
    ensures var t := ReadValue(s, id).value;
            && ReadValue(Print(t), 0) == Ok(Cut(t))
            && (ReadValue(Print(t), 0) == ReadValue(s, id) <==> StringsNulFree(t))
  {
    ReadIsPrintable(s, id);
    KeysReadNulFree(s, id);
    NulFreeSplits(ReadValue(s, id).value);
    ParsePrint(ReadValue(s, id).value);
  }

  /** Different NUL-free trees never print alike. */
  lemma PrintInjective(t: JSValue, u: JSValue)
    requires NumbersOk(t) && NulFree(t) && NumbersOk(u) && NulFree(u)
    requires |Print(t)| < 0x8000_0000 && Print(t) == Print(u)
    ensures t == u
  {
    ParsePrint(t);
    ParsePrint(u);
  }
}
