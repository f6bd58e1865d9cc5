// JSONTree::SerializeValue (src/json/jstree.cpp): the tree is emitted by pushing
// tokens into the generator, which places separators by its last-byte rule.
// The text that comes out is the structural printer's.
module JsonSerialize {
  import opened JsonChars
  import opened JsonValue
  import opened JsonGen

  /** What is still to be written when `k` members have been. */
  function RemainingPairs(pairs: seq<JSPair>, k: nat): string
    requires k <= |pairs|
  {
    if k == 0 then PrintPairs(pairs) else AfterPair(pairs[k - 1..])
  }

  function RemainingItems(values: seq<JSValue>, k: nat): string
    requires k <= |values|
  {
    if k == 0 then PrintItems(values) else AfterItem(values[k - 1..])
  }

  function MemberText(p: JSPair): string
  {
    Quote(p.key) + ": " + Print(p.value)
  }

  lemma PairsStep(pairs: seq<JSPair>, k: nat)
    requires k < |pairs|
    ensures RemainingPairs(pairs, k) ==
            (if k == 0 then "" else ", ") + MemberText(pairs[k]) + RemainingPairs(pairs, k + 1)
  {
    var here := pairs[k..];
    assert PrintPairs(here) == MemberText(pairs[k]) + AfterPair(here);
    if k == 0 {
      assert here == pairs;
    } else {
      assert pairs[k - 1..][1..] == here;
    }
  }

  lemma ItemsStep(values: seq<JSValue>, k: nat)
    requires k < |values|
    ensures RemainingItems(values, k) ==
            (if k == 0 then "" else ", ") + Print(values[k]) + RemainingItems(values, k + 1)
  {
    var here := values[k..];
    assert PrintItems(here) == Print(values[k]) + AfterItem(here);
    if k == 0 {
      assert here == values;
    } else {
      assert values[k - 1..][1..] == here;
    }
  }

  lemma Shift(w: string, sep: string, member: string, rest: string)
    ensures (w + sep + member) + rest == w + (sep + member + rest)
  {
  }

  lemma PairsOkAt(pairs: seq<JSPair>, k: nat)
    requires PairsOk(pairs) && k < |pairs|
    ensures NumbersOk(pairs[k].value)
  {
    if k > 0 { PairsOkAt(pairs[1..], k - 1); }
  }

  lemma ItemsOkAt(values: seq<JSValue>, k: nat)
    requires ItemsOk(values) && k < |values|
    ensures NumbersOk(values[k])
  {
    if k > 0 { ItemsOkAt(values[1..], k - 1); }
  }

  lemma MemberAppended(w: string, sep: string, p: JSPair)
    ensures w + sep + Quote(p.key) + ": " + Print(p.value) == w + sep + MemberText(p)
  {
  }

  lemma SepAfterMember(w: string, p: JSPair)
    requires NumbersOk(p.value)
    ensures !Blank(w + MemberText(p)) && Sep(w + MemberText(p)) == ", "
  {
    assert w + MemberText(p) == (w + Quote(p.key) + ": ") + Print(p.value);
    SepAfterValue(w + Quote(p.key) + ": ", p.value);
  }

  /** Serializing any tree into any generator appends exactly its printed text,
      behind ", " if the text so far ends in a value: inside, ", " stands between
      siblings and nowhere else.  It fails only if an allocation was refused. */
  method SerializeValue(pg: JSONGen, t: JSValue) returns (ok: bool)
    requires pg.Valid() && pg.CanMove() && (pg.Written() == "" || !Blank(pg.Written()))
    requires NumbersOk(t)
    modifies pg, pg.psz
    ensures pg.Valid() && pg.CanMove()
    ensures ok ==> pg.Written() == old(pg.Written() + Sep(pg.Written())) + Print(t)
    ensures !ok ==> !pg.GrantedSince(old(pg.asked))
    ensures pg.psz == old(pg.psz) || pg.psz == null || fresh(pg.psz)
    ensures old(pg.asked) <= pg.asked
    decreases t
  {
    hide Print, Sep;
    match t
    case JObject(pairs) => ok := SerializeObject(pg, pairs);
    case JArray(values) => ok := SerializeArray(pg, values);
    case _ => ok := SerializeScalar(pg, t);
  }

  method SerializeScalar(pg: JSONGen, t: JSValue) returns (ok: bool)
    requires pg.Valid() && pg.CanMove() && (pg.Written() == "" || !Blank(pg.Written()))
    requires NumbersOk(t) && !t.JObject? && !t.JArray?
    modifies pg, pg.psz
    ensures pg.Valid() && pg.CanMove()
    ensures ok ==> pg.Written() == old(pg.Written() + Sep(pg.Written())) + Print(t)
    ensures !ok ==> !pg.GrantedSince(old(pg.asked))
    ensures pg.psz == old(pg.psz) || pg.psz == null || fresh(pg.psz)
    ensures old(pg.asked) <= pg.asked
  {
    hide Quote, Sep;
    match t
    case JNumber(token) =>
      assert !Blank(token) && !Joins(token) by { assert token[0] in token; }
      ok := pg.PutJSON(token);
    case JString(text) => ok := pg.PutString(text, |text|);
    case JBool(b) => ok := pg.PutToken(if b then "true" else "false");
    case JNull => ok := pg.PutToken("null");
  }

  method SerializeObject(pg: JSONGen, pairs: seq<JSPair>) returns (ok: bool)
    requires pg.Valid() && pg.CanMove() && (pg.Written() == "" || !Blank(pg.Written()))
    requires PairsOk(pairs)
    modifies pg, pg.psz
    ensures pg.Valid() && pg.CanMove()
    ensures ok ==> pg.Written() == old(pg.Written() + Sep(pg.Written())) + Print(JObject(pairs))
    ensures !ok ==> !pg.GrantedSince(old(pg.asked))
    ensures pg.psz == old(pg.psz) || pg.psz == null || fresh(pg.psz)
    ensures old(pg.asked) <= pg.asked
    decreases pairs, 1
  {
    hide PrintPairs, Sep;
    ghost var w := pg.Written() + Sep(pg.Written());
    ok := pg.BeginContainer('{');
    if ok {
      SepAfterOpener(w, '{');
      ok := SerializePairs(pg, pairs);
      Shift(w, "{", PrintPairs(pairs), "");
    }
  }

  method SerializeArray(pg: JSONGen, values: seq<JSValue>) returns (ok: bool)
    requires pg.Valid() && pg.CanMove() && (pg.Written() == "" || !Blank(pg.Written()))
    requires ItemsOk(values)
    modifies pg, pg.psz
    ensures pg.Valid() && pg.CanMove()
    ensures ok ==> pg.Written() == old(pg.Written() + Sep(pg.Written())) + Print(JArray(values))
    ensures !ok ==> !pg.GrantedSince(old(pg.asked))
    ensures pg.psz == old(pg.psz) || pg.psz == null || fresh(pg.psz)
    ensures old(pg.asked) <= pg.asked
    decreases values, 1
  {
    hide PrintItems, Sep;
    ghost var w := pg.Written() + Sep(pg.Written());
    ok := pg.BeginContainer('[');
    if ok {
      SepAfterOpener(w, '[');
      ok := SerializeItems(pg, values);
      Shift(w, "[", PrintItems(values), "");
    }
  }

  /** The object loop, from behind the opening brace to the closing one. */
  method SerializePairs(pg: JSONGen, pairs: seq<JSPair>) returns (ok: bool)
    requires pg.Valid() && pg.CanMove() && !Blank(pg.Written()) && Sep(pg.Written()) == ""
    requires PairsOk(pairs)
    modifies pg, pg.psz
    ensures pg.Valid() && pg.CanMove()
    ensures ok ==> pg.Written() == old(pg.Written()) + PrintPairs(pairs)
    ensures !ok ==> !pg.GrantedSince(old(pg.asked))
    ensures pg.psz == old(pg.psz) || pg.psz == null || fresh(pg.psz)
    ensures old(pg.asked) <= pg.asked
    decreases pairs, 0
  {
    hide Print, PrintPairs, MemberText, Sep, RemainingPairs, Blank, NumbersOk, PairsOk;
    var i := 0;
    ok := true;
    assert RemainingPairs(pairs, 0) == PrintPairs(pairs) by { RemainingStart(pairs); }
    while i < |pairs|
      invariant i <= |pairs|
      invariant pg.Valid() && pg.CanMove() && !Blank(pg.Written())
      invariant Sep(pg.Written()) == if i == 0 then "" else ", "
      invariant pg.Written() + RemainingPairs(pairs, i) == old(pg.Written()) + PrintPairs(pairs)
      invariant pg.psz == old(pg.psz) || pg.psz == null || fresh(pg.psz)
      invariant old(pg.asked) <= pg.asked
    {
      ghost var before, sep := pg.Written(), Sep(pg.Written());
      ghost var w := before + sep;
      PairsOkAt(pairs, i);
      PairsStep(pairs, i);
      ok := SerializeMember(pg, pairs[i]);
      if !ok { return; }
      SepAfterMember(w, pairs[i]);
      Shift(before, sep, MemberText(pairs[i]), RemainingPairs(pairs, i + 1));
      i := i + 1;
    }
    assert RemainingPairs(pairs, i) == "}" by { RemainingEnd(pairs); }
    ok := pg.Putc('}');
  }

  lemma RemainingStart(pairs: seq<JSPair>)
    ensures RemainingPairs(pairs, 0) == PrintPairs(pairs)
  {
  }

  lemma RemainingEnd(pairs: seq<JSPair>)
    ensures RemainingPairs(pairs, |pairs|) == "}"
  {
  }

  method SerializeMember(pg: JSONGen, p: JSPair) returns (ok: bool)
    requires pg.Valid() && pg.CanMove() && !Blank(pg.Written())
    requires NumbersOk(p.value)
    modifies pg, pg.psz
    ensures pg.Valid() && pg.CanMove()
    ensures ok ==> pg.Written() == old(pg.Written() + Sep(pg.Written())) + MemberText(p)
    ensures !ok ==> !pg.GrantedSince(old(pg.asked))
    ensures pg.psz == old(pg.psz) || pg.psz == null || fresh(pg.psz)
    ensures old(pg.asked) <= pg.asked
    decreases p
  {
    hide Print, Quote, Sep, Blank, MemberText;
    ghost var w, sep := pg.Written(), Sep(pg.Written());
    ok := pg.PutKey(p.key);
    if ok {
      SepAfterColon(w + sep + Quote(p.key));
      MemberAppended(w, sep, p);
      ok := SerializeValue(pg, p.value);
    }
  }

  method SerializeItems(pg: JSONGen, values: seq<JSValue>) returns (ok: bool)
    requires pg.Valid() && pg.CanMove() && !Blank(pg.Written()) && Sep(pg.Written()) == ""
    requires ItemsOk(values)
    modifies pg, pg.psz
    ensures pg.Valid() && pg.CanMove()
    ensures ok ==> pg.Written() == old(pg.Written()) + PrintItems(values)
    ensures !ok ==> !pg.GrantedSince(old(pg.asked))
    ensures pg.psz == old(pg.psz) || pg.psz == null || fresh(pg.psz)
    ensures old(pg.asked) <= pg.asked
    decreases values, 0
  {
    hide Print, PrintItems, Sep, RemainingItems;
    var i := 0;
    ok := true;
    assert RemainingItems(values, 0) == PrintItems(values) by { RemainingItemsStart(values); }
    while i < |values|
      invariant i <= |values|
      invariant pg.Valid() && pg.CanMove() && !Blank(pg.Written())
      invariant Sep(pg.Written()) == if i == 0 then "" else ", "
      invariant pg.Written() + RemainingItems(values, i) == old(pg.Written()) + PrintItems(values)
      invariant pg.psz == old(pg.psz) || pg.psz == null || fresh(pg.psz)
      invariant old(pg.asked) <= pg.asked
    {
      ghost var before, sep := pg.Written(), Sep(pg.Written());
      ghost var w := before + sep;
      ItemsOkAt(values, i);
      ItemsStep(values, i);
      ok := SerializeValue(pg, values[i]);
      if !ok { return; }
      SepAfterValue(w, values[i]);
      Shift(before, sep, Print(values[i]), RemainingItems(values, i + 1));
      i := i + 1;
    }
    assert RemainingItems(values, i) == "]" by { RemainingItemsEnd(values); }
    ok := pg.Putc(']');
  }

  lemma RemainingItemsStart(values: seq<JSValue>)
    ensures RemainingItems(values, 0) == PrintItems(values)
  {
  }

  lemma RemainingItemsEnd(values: seq<JSValue>)
    ensures RemainingItems(values, |values|) == "]"
  {
  }
}
