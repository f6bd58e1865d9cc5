// Skip (src/json/js.c) on a text that has grown, or on a text without its front.
module JsonExtend {
  import opened JsonChars
  import opened JsonScan

  // ---- bytes behind the text ---------------------------------------------

  lemma {:induction false} SpaceExtends(s: Text, x: Text, j: nat)
    requires s <= x && SpaceEnd(s, j) < |s|
    ensures SpaceEnd(x, j) == SpaceEnd(s, j)
    decreases |s| - j
  {
    if j < |s| && IsSpace(s[j]) { SpaceExtends(s, x, j + 1); }
  }

  lemma {:induction false} WordExtends(s: Text, x: Text, j: nat)
    requires s <= x && j <= |s| && (WordEnd(s, j) < |s| || |s| == |x| || !IsWordNonBegin(x[|s|]))
    ensures WordEnd(x, j) == WordEnd(s, j)
    decreases |s| - j
  {
    if j < |s| && IsWordNonBegin(s[j]) { WordExtends(s, x, j + 1); }
  }

  lemma {:induction false} StrExtends(s: Text, x: Text, j: nat)
    requires s <= x && StrEnd(s, j) <= |s|
    ensures StrEnd(x, j) == StrEnd(s, j)
    decreases |s| - j
  {
    if s[j] == '"' {
    } else if s[j] == '\\' {
      StrExtends(s, x, j + 2);
    } else {
      StrExtends(s, x, j + 1);
    }
  }

  /** A string not closed in the text goes on where the text ended, or one byte
      later when the text ended in a backslash. */
  lemma {:induction false} StrGoesOn(s: Text, x: Text, j: nat)
    requires s <= x && StrEnd(s, j) > |s|
    ensures StrEnd(x, j) == StrEnd(x, StrEnd(s, j) - 1)
    decreases |s| - j
  {
    if j < |s| && s[j] != '"' { StrGoesOn(s, x, if s[j] == '\\' then j + 2 else j + 1); }
  }

  lemma StepExtends(s: Text, x: Text, i: nat)
    requires s <= x && i < |s|
    ensures StepAt(s, i).Bad? ==> StepAt(x, i).Bad?
    ensures StepAt(s, i).Advance? && StepAt(s, i).next < |s| ==> StepAt(x, i) == StepAt(s, i)
  {
    hide StrEnd, WordEnd, SpaceEnd;
    var c := s[i];
    if StepAt(s, i).Advance? && StepAt(s, i).next < |s| {
      if c == '"' {
        StrExtends(s, x, i + 1);
        SpaceExtends(s, x, StrEnd(s, i + 1));
      } else if IsWordBegin(c) {
        WordExtends(s, x, i + 1);
        SpaceExtends(s, x, WordEnd(s, i + 1));
      } else {
        SpaceExtends(s, x, i + 1);
      }
    }
  }

  /** A failed Skip fails on every longer text. */
  lemma {:induction false} ErrorExtends(s: Text, x: Text, i: nat, lvl: int)
    requires s <= x && SkipFlat(s, i, lvl) == ERROR
    ensures SkipFlat(x, i, lvl) == ERROR
    decreases |s| - i
  {
    hide StepAt;
    StepExtends(s, x, i);
    if StepAt(s, i).Advance? { ErrorExtends(s, x, StepAt(s, i).next, lvl + StepAt(s, i).delta); }
  }

  lemma {:induction false} SpacesToEnd(s: Text, x: Text, j: nat)
    requires x == s + " " && j <= |s| && SpaceEnd(s, j) == |s|
    ensures SpaceEnd(x, j) == |x|
    decreases |s| - j
  {
    if j < |s| {
      SpacesToEnd(s, x, j + 1);
    } else {
      assert SpaceEnd(x, |x|) == |x|;
    }
  }

  /** A token that reaches the text's end still does when a space is added. */
  lemma StepSpace(s: Text, x: Text, i: nat)
    requires x == s + " " && i < |s| && StepAt(s, i).Advance? && StepAt(s, i).next >= |s|
    ensures StepAt(x, i).Advance? && StepAt(x, i).delta == StepAt(s, i).delta
    ensures StepAt(x, i).next >= |x| && (StepAt(s, i).next == |s| ==> StepAt(x, i).next == |x|)
  {
    hide StrEnd, WordEnd, SpaceEnd;
    var c := s[i];
    if c == '"' {
      var e := StrEnd(s, i + 1);
      if e <= |s| {
        StrExtends(s, x, i + 1);
        SpacesToEnd(s, x, e);
      } else {
        StrGoesOn(s, x, i + 1);
      }
    } else if IsWordBegin(c) {
      WordExtends(s, x, i + 1);
      SpacesToEnd(s, x, WordEnd(s, i + 1));
    } else {
      SpacesToEnd(s, x, i + 1);
    }
  }

  /** Nor does a space added behind a text break a value that ends in it. */
  lemma {:induction false} SpaceKeepsValue(s: Text, x: Text, i: nat, lvl: int)
    requires x == s + " " && i < |s| && SkipFlat(s, i, lvl) <= |s|
    ensures SkipFlat(x, i, lvl) <= |x|
    decreases |s| - i
  {
    hide StepAt;
    var n := StepAt(s, i).next;
    if n < |s| {
      StepExtends(s, x, i);
      if lvl + StepAt(s, i).delta > 0 { SpaceKeepsValue(s, x, n, lvl + StepAt(s, i).delta); }
    } else {
      StepSpace(s, x, i);
    }
  }

  lemma {:induction false} InsideNoOverrun(s: Text, i: nat, lvl: int)
    requires lvl > 0
    ensures SkipFlat(s, i, lvl) == ERROR || SkipFlat(s, i, lvl) <= |s|
    decreases |s| - i
  {
    if i < |s| && StepAt(s, i).Advance? && lvl + StepAt(s, i).delta > 0 {
      InsideNoOverrun(s, StepAt(s, i).next, lvl + StepAt(s, i).delta);
    }
  }

  /** Only a string that is not closed makes Skip run over the end. */
  lemma OverrunIsString(s: Text)
    requires |s| < Skip(s, 0) && Skip(s, 0) != ERROR
    ensures s != "" && s[0] == '"' && Skip(s, 0) == StrEnd(s, 1)
  {
    if s[0] == '"' {
      assert StepAt(s, 0).next == Skip(s, 0);
    } else if StepAt(s, 0).delta > 0 {
      InsideNoOverrun(s, StepAt(s, 0).next, StepAt(s, 0).delta);
    }
  }

  // ---- the text without its front ----------------------------------------

  lemma {:induction false} SpaceShifts(s: Text, n: nat, j: nat)
    requires n <= |s| && j <= |s[n..]|
    ensures SpaceEnd(s, n + j) == n + SpaceEnd(s[n..], j)
    decreases |s| - n - j
  {
    if n + j < |s| && IsSpace(s[n + j]) { SpaceShifts(s, n, j + 1); }
  }

  lemma {:induction false} WordShifts(s: Text, n: nat, j: nat)
    requires n <= |s| && j <= |s[n..]|
    ensures WordEnd(s, n + j) == n + WordEnd(s[n..], j)
    decreases |s| - n - j
  {
    if n + j < |s| && IsWordNonBegin(s[n + j]) { WordShifts(s, n, j + 1); }
  }

  lemma {:induction false} StrShifts(s: Text, n: nat, j: nat)
    requires n <= |s|
    ensures StrEnd(s, n + j) == n + StrEnd(s[n..], j)
    decreases |s| - n - j
  {
    if n + j < |s| && s[n + j] != '"' { StrShifts(s, n, if s[n + j] == '\\' then j + 2 else j + 1); }
  }

  lemma StepShifts(s: Text, n: nat, i: nat)
    requires n <= |s| && i < |s[n..]|
    ensures StepAt(s, n + i) == match StepAt(s[n..], i) case Bad => Bad case Advance(m, d) => Advance(n + m, d)
  {
    hide StrEnd, WordEnd, SpaceEnd;
    var u: Text := s[n..];
    var c := u[i];
    if c == '"' {
      StrShifts(s, n, i + 1);
      if StrEnd(u, i + 1) <= |u| { SpaceShifts(s, n, StrEnd(u, i + 1)); }
    } else if IsWordBegin(c) {
      WordShifts(s, n, i + 1);
      SpaceShifts(s, n, WordEnd(u, i + 1));
    } else {
      SpaceShifts(s, n, i + 1);
    }
  }

  /** Skip knows nothing of what stands before it. */
  lemma {:induction false} SkipShifts(s: Text, n: nat, i: nat, lvl: int)
    requires n <= |s|
    ensures var r := SkipFlat(s[n..], i, lvl);
            SkipFlat(s, n + i, lvl) == if r == ERROR then ERROR else n + r
    decreases |s| - n - i
  {
    hide StepAt;
    if n + i < |s| {
      StepShifts(s, n, i);
      match StepAt(s[n..], i)
      case Bad =>
      case Advance(m, d) => if lvl + d > 0 { SkipShifts(s, n, m, lvl + d); }
    }
  }
}
