// The token skipper of src/json/js.c: Skip walks over one value with a single
// nesting counter, and ObjectNext/ArrayNext enumerate members with it.
module JsonScan {
  import opened JsonChars

  // ---- tokens ------------------------------------------------------------

  function StrEnd(s: Text, j: nat): (r: nat)
    ensures j < r <= j + 1 || r <= |s| + 2
    ensures r > j
    decreases |s| - j
  {
    if j >= |s| || s[j] == '"' then j + 1
    else if s[j] == '\\' then StrEnd(s, j + 2)
    else StrEnd(s, j + 1)
  }

  function WordEnd(s: Text, j: nat): (r: nat)
    requires j <= |s|
    ensures j <= r <= |s|
    decreases |s| - j
  {
    if j < |s| && IsWordNonBegin(s[j]) then WordEnd(s, j + 1) else j
  }

  function SpaceEnd(s: Text, j: nat): (r: nat)
    ensures j <= r && (j <= |s| ==> r <= |s|) && (j >= |s| ==> r == j)
    decreases |s| - j
  {
    if j < |s| && IsSpace(s[j]) then SpaceEnd(s, j + 1) else j
  }

  // ---- the loop of Skip --------------------------------------------------

  datatype Step = Bad | Advance(next: nat, delta: int)

  /** One turn of Skip's loop: the token at `i` with the spaces after it. */
  function StepAt(s: Text, i: nat): (r: Step)
    requires i < |s|
    ensures r.Advance? ==> i < r.next <= |s| + 2
  {
    var c := s[i];
    if c == '"' then Advance(SpaceEnd(s, StrEnd(s, i + 1)), 0)
    else if IsWordBegin(c) then Advance(SpaceEnd(s, WordEnd(s, i + 1)), 0)
    else if c == ':' || c == ',' then Advance(SpaceEnd(s, i + 1), 0)
    else if IsOpener(c) then Advance(SpaceEnd(s, i + 1), 1)
    else if IsCloser(c) then Advance(SpaceEnd(s, i + 1), -1)
    else Bad
  }

  function SkipFlat(s: Text, i: nat, lvl: int): (r: nat)
    ensures r == ERROR || r <= |s| + 2
    decreases |s| - i
  {
    if i >= |s| then |s|
    else match StepAt(s, i)
      case Bad => ERROR
      case Advance(n, d) => if lvl + d > 0 then SkipFlat(s, n, lvl + d) else n
  }

  /** Skip of js.c: the flat loop started with nesting level 0. */
  function Skip(s: Text, i: nat): (r: nat)
    ensures i < |s| && r != ERROR ==> r > i
    ensures i >= |s| ==> r == |s|
    ensures r == ERROR || r <= |s| + 2
  {
    SkipAdvances(s, i, 0);
    SkipFlat(s, i, 0)
  }

  lemma SkipAdvances(s: Text, i: nat, lvl: int)
    ensures i < |s| && SkipFlat(s, i, lvl) != ERROR ==> SkipFlat(s, i, lvl) > i
    decreases |s| - i
  {
    if i < |s| {
      match StepAt(s, i)
      case Bad =>
      case Advance(n, d) =>
        if lvl + d > 0 { SkipAdvances(s, n, lvl + d); }
    }
  }

  // ---- the recursive grammar ---------------------------------------------

  /** One item by recursive descent: a bracketed group is skipped as its items
      up to the closer, anything else is a single token. */
  function SkipItem(s: Text, i: nat): (r: nat)
    ensures i < |s| && r != ERROR ==> r > i
    ensures r == ERROR || r <= |s| + 2
    decreases |s| - i, 0
  {
    if i >= |s| then |s|
    else if IsOpener(s[i]) then SkipGroup(s, SpaceEnd(s, i + 1))
    else match StepAt(s, i)
      case Bad => ERROR
      case Advance(n, _) => n
  }

  function SkipGroup(s: Text, i: nat): (r: nat)
    ensures i < |s| && r != ERROR ==> r > i
    ensures r == ERROR || r <= |s| + 2
    ensures i >= |s| ==> r == |s|
    ensures r != ERROR && i <= |s| ==> i <= r
    decreases |s| - i, 1
  {
    if i >= |s| then |s|
    else if IsCloser(s[i]) then SpaceEnd(s, i + 1)
    else
      var r := SkipItem(s, i);
      if r == ERROR then ERROR
      else if r >= |s| then |s|
      else SkipGroup(s, r)
  }

  lemma StepBounds(s: Text, i: nat)
    requires i < |s|
    ensures var step := StepAt(s, i);
            step.Advance? ==> i < step.next <= |s| + 2 && -1 <= step.delta <= 1
  {
  }

  lemma ItemStep(s: Text, i: nat)
    requires i < |s| && !IsCloser(s[i])
    ensures var step := StepAt(s, i);
            SkipItem(s, i) == if step.Bad? then ERROR
                              else if step.delta == 1 then SkipGroup(s, step.next)
                              else step.next
    ensures StepAt(s, i).Advance? ==> StepAt(s, i).delta != -1
  {
    hide SkipGroup, SpaceEnd, StrEnd, WordEnd;
  }

  /** A group by the token it begins with. */
  lemma GroupStep(s: Text, i: nat)
    requires i < |s|
    ensures var step, g := StepAt(s, i), SkipGroup(s, i);
            if step.Bad? then g == ERROR
            else if step.delta == -1 then g == step.next
            else if step.delta == 0 then g == SkipGroup(s, step.next)
            else var r := SkipGroup(s, step.next);
                 g == if r == ERROR then ERROR else SkipGroup(s, r)
  {
    StepBounds(s, i);
    if IsCloser(s[i]) {
    } else {
      hide StepAt, SkipItem, SpaceEnd;
      ItemStep(s, i);
    }
  }

  lemma FlatStep(s: Text, i: nat, lvl: int)
    requires i < |s|
    ensures var step := StepAt(s, i);
            SkipFlat(s, i, lvl) == if step.Bad? then ERROR
                                   else if lvl + step.delta > 0 then SkipFlat(s, step.next, lvl + step.delta)
                                   else step.next
  {
    hide StepAt;
  }

  /** With `lvl + 1` groups open, the flat loop closes the innermost one and
      goes on with `lvl`. */
  predicate ClosesGroup(s: Text, i: nat, lvl: nat)
  {
    var r := SkipGroup(s, i);
    SkipFlat(s, i, lvl + 1) ==
      if r == ERROR then ERROR else if lvl == 0 then r else SkipFlat(s, r, lvl)
  }

  lemma CloseThenClose(s: Text, i: nat, n: nat, r: nat, lvl: nat)
    requires r == SkipGroup(s, n) && ClosesGroup(s, n, lvl + 1)
    requires r != ERROR ==> ClosesGroup(s, r, lvl)
    requires SkipFlat(s, i, lvl + 1) == SkipFlat(s, n, lvl + 2)
    requires SkipGroup(s, i) == if r == ERROR then ERROR else SkipGroup(s, r)
    ensures ClosesGroup(s, i, lvl)
  {
    hide SkipFlat, SkipGroup;
  }

  lemma {:induction false} FlatClosesGroup(s: Text, i: nat, lvl: nat)
    ensures ClosesGroup(s, i, lvl)
    decreases |s| - i, 1
  {
    hide StepAt, ClosesGroup;
    if i >= |s| || StepAt(s, i).Bad? || StepAt(s, i).delta == -1 {
      ClosesAtOnce(s, i, lvl);
    } else {
      StepBounds(s, i);
      if StepAt(s, i).delta == 1 { ClosesNested(s, i, lvl); } else { ClosesLater(s, i, lvl); }
    }
  }

  lemma ClosesAtOnce(s: Text, i: nat, lvl: nat)
    requires i >= |s| || StepAt(s, i).Bad? || StepAt(s, i).delta == -1
    ensures ClosesGroup(s, i, lvl)
  {
    if i < |s| {
      hide StepAt, SkipGroup, SkipFlat;
      GroupStep(s, i);
      FlatStep(s, i, lvl + 1);
    }
  }

  lemma {:induction false} ClosesNested(s: Text, i: nat, lvl: nat)
    requires i < |s| && StepAt(s, i).Advance? && StepAt(s, i).delta == 1
    ensures ClosesGroup(s, i, lvl)
    decreases |s| - i, 0
  {
    hide StepAt, SkipGroup, SkipFlat, ClosesGroup;
    var n := StepAt(s, i).next;
    StepBounds(s, i);
    GroupStep(s, i);
    FlatStep(s, i, lvl + 1);
    FlatClosesGroup(s, n, lvl + 1);
    var r := SkipGroup(s, n);
    if r != ERROR { FlatClosesGroup(s, r, lvl); }
    CloseThenClose(s, i, n, r, lvl);
  }

  lemma {:induction false} ClosesLater(s: Text, i: nat, lvl: nat)
    requires i < |s| && StepAt(s, i).Advance? && StepAt(s, i).delta == 0
    ensures ClosesGroup(s, i, lvl)
    decreases |s| - i, 0
  {
    hide StepAt, SkipGroup, SkipFlat;
    StepBounds(s, i);
    GroupStep(s, i);
    FlatStep(s, i, lvl + 1);
    FlatClosesGroup(s, StepAt(s, i).next, lvl);
  }

  /** Skip's single counter computes exactly the recursive grammar's item, on
      arbitrary bytes. */
  lemma SkipIsSkipItem(s: Text, i: nat)
    ensures Skip(s, i) == SkipItem(s, i)
  {
    if i < |s| && IsOpener(s[i]) {
      FlatClosesGroup(s, SpaceEnd(s, i + 1), 0);
    }
  }

  // ---- enumeration -------------------------------------------------------

  /** What ObjectNext reports: the new enumeration state and the two ids. */
  datatype Member = Member(next: nat, key: nat, value: nat)

  /** On arbitrary bytes a successful step moves the state strictly forward and
      hands out a key and a value offset inside the text, in order; a failed
      Skip (offset ERROR) is never used as an index. */
  function ObjectNext(s: Text, i: nat): (m: Member)
    ensures m.next < |s| ==> i == m.key < m.value < m.next
  {
    var iColon := Skip(s, i);
    var iValue := Skip(s, iColon);
    var iSep := Skip(s, iValue);
    if i >= |s| then Member(ERROR, ERROR, iValue)
    else if s[i] == '}' then Member(ENOMORE, ENOMORE, iValue)
    else if iSep >= |s| || !(s[i] == '"' || IsTagBegin(s[i])) || s[iColon] != ':'
            || (s[iSep] != ',' && s[iSep] != '}') then Member(ERROR, ERROR, ERROR)
    else if s[iSep] == ',' then Member(Skip(s, iSep), i, iValue)
    else Member(iSep, i, iValue)
  }

  /** Where the enumeration goes from a separator: behind a comma and its spaces, or
      to the closer itself. */
  predicate GoesOn(s: Text, sep: nat, closer: char, next: nat)
  {
    sep < |s| && if s[sep] == ',' then next == SkipItem(s, sep) else s[sep] == closer && next == sep
  }

  /** A member in terms of the grammar: a key, a colon, a value and a separator, each one
      item. */
  predicate MemberFrom(s: Text, m: Member)
  {
    var colon := SkipItem(s, m.key);
    && m.key < |s| && (s[m.key] == '"' || IsTagBegin(s[m.key]))
    && colon < |s| && s[colon] == ':' && m.value == SkipItem(s, colon)
    && GoesOn(s, SkipItem(s, m.value), '}', m.next)
  }

  /** ObjectNext succeeds on such members and on nothing else, whatever the bytes. */
  lemma ObjectNextForm(s: Text, m: Member)
    requires m.next < |s|
    ensures ObjectNext(s, m.key) == m <==> MemberFrom(s, m)
  {
    hide Skip, SkipItem;
    var i := m.key;
    SkipIsSkipItem(s, i);
    SkipIsSkipItem(s, Skip(s, i));
    SkipIsSkipItem(s, Skip(s, Skip(s, i)));
    SkipIsSkipItem(s, Skip(s, Skip(s, Skip(s, i))));
  }

  datatype Element = Element(next: nat, value: nat)

  /** ArrayNext likewise: one item that is no closing bracket, and a separator. */
  lemma ArrayNextForm(s: Text, e: Element)
    requires e.next < |s|
    ensures ArrayNext(s, e.value) == e <==>
              e.value < |s| && s[e.value] != ']' && GoesOn(s, SkipItem(s, e.value), ']', e.next)
  {
    hide Skip, SkipItem;
    SkipIsSkipItem(s, e.value);
    SkipIsSkipItem(s, Skip(s, e.value));
  }

  function ArrayNext(s: Text, i: nat): (e: Element)
    ensures e.next < |s| ==> i == e.value < e.next
  {
    var iSep := Skip(s, i);
    if i >= |s| then Element(ERROR, ERROR)
    else if s[i] == ']' then Element(ENOMORE, ENOMORE)
    else if iSep >= |s| || (s[iSep] != ',' && s[iSep] != ']') then Element(ERROR, ERROR)
    else if s[iSep] == ',' then Element(Skip(s, iSep), i)
    else Element(iSep, i)
  }

  /** EnumInit on the container at `id`: the state of the first member, or ERROR. */
  function EnumInit(s: Text, id: nat, opener: char): (st: nat)
    requires id < |s|
    ensures st == ERROR || id < st < |s|
  {
    var start := if id == 0 then SpaceEnd(s, 0) else id;
    if start < |s| && s[start] == opener then
      var st := SpaceEnd(s, start + 1);
      if st < |s| then st else ERROR
    else ERROR
  }
}
