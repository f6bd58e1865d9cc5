// The JSON generator of src/json/jsgen.c: a buffer that starts on the caller's
// static storage or on nothing, moves to the heap when it fills, and decides
// where ", " goes by looking at the last byte already written.
module JsonGen {
  import opened JsonChars
  import opened JsonValue

  /** Nothing but spaces: NeedSeparator would look before the buffer's start. */
  predicate Blank(text: string) { forall c :: c in text ==> IsSpace(c) }

  function LastByte(text: string): (c: char)
    requires !Blank(text)
    ensures c in text && !IsSpace(c)
  {
    var n := |text| - 1;
    if IsSpace(text[n]) then
      assert text == text[..n] + [text[n]];
      LastByte(text[..n])
    else text[n]
  }

  predicate OpensSlot(c: char) { c == '[' || c == '{' || c == ':' || c == ',' }

  /** JSONGen_NeedSeparator on what has been written so far. */
  predicate NeedSep(text: string)
    requires text == "" || !Blank(text)
  {
    text != "" && !OpensSlot(LastByte(text))
  }

  function Sep(text: string): string
    requires text == "" || !Blank(text)
  {
    if NeedSep(text) then ", " else ""
  }

  /** The first byte that is no space continues what is there already. */
  predicate Joins(text: string)
    requires !Blank(text)
  {
    if IsSpace(text[0]) then
      assert text == [text[0]] + text[1..];
      Joins(text[1..])
    else text[0] == ']' || text[0] == '}' || text[0] == ',' || text[0] == ':'
  }

  lemma EscapeStep(s: string, k: nat, before: string)
    requires k < |s| && s[k] != NUL
    ensures before + EscapeChar(s[k]) + Escape(s[k + 1..]) == before + Escape(s[k..])
  {
    assert s[k..][1..] == s[k + 1..];
  }

  lemma EscapeEnds(s: string)
    requires s == "" || s[0] == NUL
    ensures Escape(s) == ""
  {
  }

  lemma QuoteAppended(w: string, s: string)
    ensures w + ['"'] + Escape(s) + ['"'] == w + Quote(s)
  {
  }

  /** PutJSON's look at the first byte that is no space. */
  method StartsJoined(text: string) returns (joins: bool)
    requires !Blank(text)
    ensures joins == Joins(text)
  {
    var n := 0;
    assert text[0..] == text;
    while IsSpace(text[n])
      invariant 0 <= n < |text| && !Blank(text[n..]) && Joins(text[n..]) == Joins(text)
      decreases |text| - n
    {
      assert text[n..] == [text[n]] + text[n + 1..];
      assert text[n..][1..] == text[n + 1..];
      n := n + 1;
    }
    joins := text[n] == ']' || text[n] == '}' || text[n] == ',' || text[n] == ':';
  }

  class JSONGen {
    var psz: array?<char>
    var nMax: nat
    var nCurr: nat
    const pszStatic: array?<char>
    const hasRealloc: bool       // pfnRealloc was given
    const grants: nat -> bool    // the allocator's answer to its k-th request
    var asked: nat               // requests made so far

    ghost predicate Valid()
      reads this
    {
      && (psz == null ==> nMax == 0 && nCurr == 0)
      && (psz != null ==> nCurr <= nMax <= psz.Length)
    }

    /** What has been written. */
    ghost function Written(): string
      requires Valid()
      reads this, psz
    {
      if psz == null then "" else psz[..nCurr]
    }

    /** Every request since `from` was granted. */
    ghost predicate GrantedSince(from: nat)
      reads this`asked
    {
      hasRealloc && forall k :: from <= k < asked ==> grants(k)
    }

    /** If the text has to leave the static buffer next, the allocator agrees. */
    ghost predicate CanMove()
      reads this
    {
      psz != null && psz == pszStatic && hasRealloc ==> grants(asked)
    }

    /** Asking for `i` bytes does not lose a text that is there: else PutString, which
        looks for the separator before it looks at the outcome, reads through null. */
    ghost predicate MoveSafe(i: nat)
      reads this
    {
      nMax - nCurr < i && nCurr > 0 && psz != null && psz == pszStatic && hasRealloc ==> grants(asked)
    }

    constructor (buf: array?<char>, max: nat, hasRealloc: bool, grants: nat -> bool)
      requires if buf == null then max == 0 else max <= buf.Length
      ensures Valid() && Written() == "" && asked == 0
      ensures psz == pszStatic == buf && nMax == max
      ensures this.hasRealloc == hasRealloc && this.grants == grants
    {
      psz, pszStatic, nMax, nCurr, asked := buf, buf, max, 0, 0;
      this.hasRealloc, this.grants := hasRealloc, grants;
    }

    /** pfnRealloc: a granted request gives a block of `n` bytes that begins with
        the old block's bytes; a refused one changes nothing. */
    method Realloc(n: nat) returns (ok: bool)
      requires hasRealloc && Valid() && nCurr <= n
      modifies this`psz, this`asked
      ensures ok == grants(old(asked)) && asked == old(asked) + 1
      ensures !ok ==> psz == old(psz)
      ensures ok ==> psz != null && fresh(psz) && psz.Length == n
      ensures ok ==> psz[..nCurr] == old(Written())
    {
      ok := grants(asked);
      asked := asked + 1;
      if ok {
        var block := new char[n];
        if psz != null {
          var k := 0;
          while k < nCurr
            modifies block
            invariant k <= nCurr
            invariant block[..k] == psz[..k]
          {
            block[k] := psz[k];
            k := k + 1;
          }
        }
        psz := block;
      }
    }

    /** Room for `i` more bytes, moving or growing the buffer if need be.  When the
        move off the static buffer is refused, psz is left null although nMax and
        nCurr still describe the static buffer. */
    method AssertSpaceFor(i: nat) returns (ok: bool)
      requires Valid()
      modifies this`psz, this`nMax, this`asked
      ensures ok <==> old(nMax) - nCurr >= i || (hasRealloc && grants(old(asked)))
      ensures ok ==> Valid() && Written() == old(Written()) && nMax - nCurr >= i
      ensures !ok && !(hasRealloc && old(psz) != null && old(psz) == pszStatic) ==>
                Valid() && Written() == old(Written())
      ensures !ok && hasRealloc && old(psz) != null && old(psz) == pszStatic ==>
                psz == null && nMax == old(nMax)
      ensures !ok ==> !GrantedSince(old(asked))
      ensures psz == old(psz) || psz == null || fresh(psz)
      ensures old(CanMove()) ==> Valid() && CanMove()
      ensures old(asked) <= asked
    {
      if nMax - nCurr >= i { return true; }
      if !hasRealloc { return false; }
      var nSize;
      if psz == null {
        nSize := if i > 256 then i else 256;
      } else {
        nSize := if nMax > i then nMax * 2 else nMax + i;
      }
      ghost var from := asked;
      assert nCurr <= nSize;
      ok := Realloc(nSize);
      assert from < asked && !ok ==> !grants(from);
      if ok {
        nMax := nSize;
      } else if psz == pszStatic {
        psz := null;
      }
    }

    method Putc(c: char) returns (ok: bool)
      requires Valid()
      modifies this, psz
      ensures ok ==> Valid() && Written() == old(Written()) + [c]
      ensures old(CanMove()) ==> Valid() && CanMove()
      ensures !ok && Valid() ==> Written() == old(Written())
      ensures !ok ==> !GrantedSince(old(asked))
      ensures psz == old(psz) || psz == null || fresh(psz)
      ensures old(asked) <= asked
    {
      ok := AssertSpaceFor(1);
      if ok {
        psz[nCurr] := c;
        nCurr := nCurr + 1;
      }
    }

    method PutStr(pb: string) returns (ok: bool)
      requires Valid()
      modifies this, psz
      ensures ok ==> Valid() && Written() == old(Written()) + pb
      ensures old(CanMove()) ==> Valid() && CanMove()
      ensures !ok && Valid() ==> Written() == old(Written())
      ensures !ok ==> !GrantedSince(old(asked))
      ensures psz == old(psz) || psz == null || fresh(psz)
      ensures old(asked) <= asked
    {
      ok := AssertSpaceFor(|pb|);
      if ok {
        var k := 0;
        while k < |pb|
          invariant k <= |pb| && Valid() && nMax - nCurr >= |pb| - k
          invariant Written() == old(Written()) + pb[..k]
          invariant k < |pb| ==> psz != null
          invariant psz == old(psz) || psz == null || fresh(psz)
          invariant old(CanMove()) ==> CanMove()
          invariant old(asked) <= asked
        {
          psz[nCurr] := pb[k];
          nCurr := nCurr + 1;
          k := k + 1;
        }
      }
    }
  
    method NeedSeparator() returns (need: bool)
      requires Valid() && (Written() == "" || !Blank(Written()))
      ensures need == NeedSep(Written())
    {
      if nCurr == 0 { return false; }
      var n := nCurr - 1;
      while IsSpace(psz[n])
        invariant 0 <= n < nCurr && !Blank(psz[..n + 1])
        invariant LastByte(psz[..n + 1]) == LastByte(Written())
        decreases n
      {
        assert psz[..n + 1] == psz[..n] + [psz[n]];
        assert psz[..n + 1][..n] == psz[..n];
        n := n - 1;
      }
      need := !OpensSlot(psz[n]);
    }

    /** The separator in front of a value, where one is due. */
    method PutSeparator() returns (ok: bool)
      requires Valid() && (Written() == "" || !Blank(Written()))
      modifies this, psz
      ensures ok ==> Valid() && Written() == old(Written() + Sep(Written()))
      ensures old(CanMove()) ==> Valid() && CanMove()
      ensures !ok && Valid() ==> Written() == old(Written())
      ensures !ok ==> !GrantedSince(old(asked))
      ensures psz == old(psz) || psz == null || fresh(psz)
      ensures old(asked) <= asked
    {
      var need := NeedSeparator();
      ok := true;
      if need { ok := PutStr(", "); }
    }

    method PutString(s: string, nLen: nat) returns (ok: bool)
      requires Valid() && (Written() == "" || !Blank(Written()))
      requires MoveSafe(nLen + 4)
      modifies this, psz
      ensures old(CanMove()) ==> Valid() && CanMove()
      ensures ok ==> Valid() && Written() == old(Written() + Sep(Written())) + Quote(s)
      ensures !ok ==> !GrantedSince(old(asked))
      ensures psz == old(psz) || psz == null || fresh(psz)
      ensures old(asked) <= asked
    {
      hide Quote, Escape;
      ok := AssertSpaceFor(nLen + 4);
      var need := false;
      if nCurr > 0 { need := NeedSeparator(); }
      if need { ok := PutStr(", "); }
      if ok { ok := PutQuoted(s); }
    }

    /** The quoted and escaped bytes of the C string `s`. */
    method PutQuoted(s: string) returns (ok: bool)
      requires Valid()
      modifies this, psz
      ensures old(CanMove()) ==> Valid() && CanMove()
      ensures ok ==> Valid() && Written() == old(Written()) + Quote(s)
      ensures !ok ==> !GrantedSince(old(asked))
      ensures psz == old(psz) || psz == null || fresh(psz)
      ensures old(asked) <= asked
    {
      hide Quote, Escape;
      ok := Putc('"');
      if ok { ok := PutEscaped(s); }
      if ok { ok := Putc('"'); }
      QuoteAppended(old(Written()), s);
    }

    method PutEscaped(s: string) returns (ok: bool)
      requires Valid()
      modifies this, psz
      ensures old(CanMove()) ==> Valid() && CanMove()
      ensures ok ==> Valid() && Written() == old(Written()) + Escape(s)
      ensures !ok ==> !GrantedSince(old(asked))
      ensures psz == old(psz) || psz == null || fresh(psz)
      ensures old(asked) <= asked
    {
      hide EscapeChar, Escape;
      var k := 0;
      ok := true;
      assert s[0..] == s;
      while k < |s| && s[k] != NUL
        invariant k <= |s|
        invariant Valid() && (old(CanMove()) ==> CanMove())
        invariant Written() + Escape(s[k..]) == old(Written()) + Escape(s)
        invariant psz == old(psz) || psz == null || fresh(psz)
        invariant old(asked) <= asked
      {
        ghost var before := Written();
        ok := PutChar(s[k]);
        if !ok { return; }
        EscapeStep(s, k, before);
        assert Written() + Escape(s[k + 1..]) == before + Escape(s[k..]);
        k := k + 1;
      }
      EscapeEnds(s[k..]);
      ok := true;
    }

    /** One byte of a string, escaped where the generator escapes it. */
    method PutChar(c: char) returns (ok: bool)
      requires Valid() && c != NUL
      modifies this, psz
      ensures old(CanMove()) ==> Valid() && CanMove()
      ensures ok ==> Valid() && Written() == old(Written()) + EscapeChar(c)
      ensures !ok ==> !GrantedSince(old(asked))
      ensures psz == old(psz) || psz == null || fresh(psz)
      ensures old(asked) <= asked
    {
      if c > 0x1F as char && c != '"' && c != '\\' {
        ok := Putc(c);
      } else {
        match c
        case '"' => ok := PutStr("\\\"");
        case '\\' => ok := PutStr("\\\\");
        case '\n' => ok := PutStr("\\n");
        case '\r' => ok := PutStr("\\r");
        case '\t' => ok := PutStr("\\t");
        case _ =>
          if c == BACKSPACE { ok := PutStr("\\b"); }
          else if c == FORMFEED { ok := PutStr("\\f"); }
          else { ok := Putc(c); }
      }
    }
  
    method BeginContainer(opener: char) returns (ok: bool)
      requires Valid() && (Written() == "" || !Blank(Written()))
      modifies this, psz
      ensures old(CanMove()) ==> Valid() && CanMove()
      ensures ok ==> Valid() && Written() == old(Written() + Sep(Written())) + [opener]
      ensures !ok ==> !GrantedSince(old(asked))
      ensures psz == old(psz) || psz == null || fresh(psz)
      ensures old(asked) <= asked
    {
      var need := NeedSeparator();
      if need { ok := PutStr(", " + [opener]); } else { ok := Putc(opener); }
    }

    method PutKey(key: string) returns (ok: bool)
      requires Valid() && (Written() == "" || !Blank(Written()))
      requires MoveSafe(|CStr(key)| + 4)
      modifies this, psz
      ensures old(CanMove()) ==> Valid() && CanMove()
      ensures ok ==> Valid() && Written() == old(Written() + Sep(Written())) + Quote(key) + ": "
      ensures !ok ==> !GrantedSince(old(asked))
      ensures psz == old(psz) || psz == null || fresh(psz)
      ensures old(asked) <= asked
    {
      hide Quote;
      ok := PutString(key, |CStr(key)|);
      if ok { ok := PutStr(": "); }
    }

    /** PutBool, PutNull, PutInt and PutUInt: a token written as it stands. */
    method PutToken(token: string) returns (ok: bool)
      requires Valid() && (Written() == "" || !Blank(Written()))
      modifies this, psz
      ensures old(CanMove()) ==> Valid() && CanMove()
      ensures ok ==> Valid() && Written() == old(Written() + Sep(Written())) + token
      ensures !ok ==> !GrantedSince(old(asked))
      ensures psz == old(psz) || psz == null || fresh(psz)
      ensures old(asked) <= asked
    {
      ok := PutSeparator();
      if ok { ok := PutStr(token); }
    }

    /** PutJSON: text that begins with a closer, a comma or a colon needs no separator. */
    method PutJSON(text: string) returns (ok: bool)
      requires Valid() && (Written() == "" || !Blank(Written()))
      requires text == "" || !Blank(text)
      modifies this, psz
      ensures old(CanMove()) ==> Valid() && CanMove()
      ensures text == "" ==> !ok && Valid() && Written() == old(Written())
      ensures ok ==>
                Valid() && Written() == old(Written() + if Joins(text) then "" else Sep(Written())) + text
      ensures !ok ==> text == "" || !GrantedSince(old(asked))
      ensures psz == old(psz) || psz == null || fresh(psz)
      ensures old(asked) <= asked
    {
      hide Sep, Blank, Joins;
      if |text| == 0 { return false; }
      var joins := StartsJoined(text);
      ok := true;
      if !joins { ok := PutSeparator(); }
      if ok { ok := PutStr(text); }
    }

    /** The finished text with a NUL behind it that is not counted; `size` counts it. */
    method GetJSON() returns (ok: bool, size: nat)
      requires Valid()
      modifies this, psz
      ensures ok ==> Valid() && Written() == old(Written())
      ensures ok ==> psz != null && size == nCurr + 1 <= psz.Length && psz[..size] == Written() + [NUL]
      ensures !ok ==> old(Written()) == "" || !GrantedSince(old(asked))
    {
      size := 0;
      if nCurr == 0 { return false, 0; }
      ok := Putc(NUL);
      if ok {
        nCurr := nCurr - 1;
        size := nCurr + 1;
      }
    }
  }

  // ---- the separator heuristic -------------------------------------------

  lemma LastByteIs(w: string, c: char)
    requires !IsSpace(c)
    ensures !Blank(w + [c]) && LastByte(w + [c]) == c
  {
    assert c in w + [c];
  }

  /** A printed value ends in a byte that asks for a separator. */
  lemma {:induction false} PrintEnds(t: JSValue)
    requires NumbersOk(t)
    ensures |Print(t)| > 0
    ensures var c := Print(t)[|Print(t)| - 1]; !IsSpace(c) && !OpensSlot(c)
    decreases t
  {
    match t
    case JObject(pairs) => PairsEnd(pairs);
    case JArray(values) => ItemsEnd(values);
    case _ =>
  }

  lemma {:induction false} PairsEnd(pairs: seq<JSPair>)
    ensures |PrintPairs(pairs)| > 0 && PrintPairs(pairs)[|PrintPairs(pairs)| - 1] == '}'
    decreases pairs
  {
    if pairs != [] {
      if |pairs| > 1 { PairsEnd(pairs[1..]); }
      var after := AfterPair(pairs);
      assert after[|after| - 1] == '}';
    }
  }

  lemma {:induction false} ItemsEnd(values: seq<JSValue>)
    ensures |PrintItems(values)| > 0 && PrintItems(values)[|PrintItems(values)| - 1] == ']'
    decreases values
  {
    if values != [] {
      if |values| > 1 { ItemsEnd(values[1..]); }
      var after := AfterItem(values);
      assert after[|after| - 1] == ']';
    }
  }

  lemma SepAfterValue(w: string, t: JSValue)
    requires NumbersOk(t)
    ensures !Blank(w + Print(t)) && Sep(w + Print(t)) == ", "
  {
    PrintEnds(t);
    var n := |Print(t)| - 1;
    assert w + Print(t) == (w + Print(t)[..n]) + [Print(t)[n]];
    LastByteIs(w + Print(t)[..n], Print(t)[n]);
  }

  lemma SepAfterOpener(w: string, c: char)
    requires OpensSlot(c)
    ensures !Blank(w + [c]) && Sep(w + [c]) == ""
  {
    LastByteIs(w, c);
  }

  lemma SepAfterColon(w: string)
    ensures !Blank(w + ": ") && Sep(w + ": ") == ""
  {
    var x := w + ": ";
    SepAfterOpener(w, ':');
    assert x[..|x| - 1] == w + [':'];
    assert ':' in x;
    assert x[|x| - 1] == ' ';
  }
}
