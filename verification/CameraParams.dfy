// CameraVirtualParams of src/virtual/camera_virtual.cpp: a map that is written as
// `key=value;` text and updated from such text.
module CameraParams {

  type Params = map<string, string>

  /** strchr: the first place of `c` in `s`, or the length. */
  function IndexOf(s: string, c: char): (n: nat)
    ensures n <= |s| && c !in s[..n]
    ensures n < |s| ==> s[n] == c
  {
    if s == "" || s[0] == c then 0
    else
      var n := IndexOf(s[1..], c);
      assert s[..1 + n] == [s[0]] + s[1..][..n];
      1 + n
  }

  /** The first item of a text: none without '='; open, up to the end, without a
      ';' behind it; else closed by the ';'. */
  datatype Item = NoItem | Open(key: string, val: string) | Closed(key: string, val: string, rest: string)

  function First(s: string): (r: Item)
    ensures r.Closed? ==> |r.rest| < |s|
    ensures !r.NoItem? ==> '=' !in r.key && ';' !in r.val
  {
    var eq := IndexOf(s, '=');
    if eq == |s| then NoItem
    else
      var v := s[eq + 1..];
      var semi := IndexOf(v, ';');
      assert semi == |v| ==> v[..semi] == v;
      if semi == |v| then Open(s[..eq], v) else Closed(s[..eq], v[..semi], v[semi + 1..])
  }

  function Update(m: Params, s: string): Params
    decreases |s|
  {
    match First(s)
    case NoItem => m
    case Open(key, val) => m[key := val]
    case Closed(key, val, rest) => Update(m[key := val], rest)
  }

  /** What is left of `s` behind its last item closed by ';'. */
  function Remainder(s: string): (r: string)
    ensures |r| <= |s|
    decreases |s|
  {
    match First(s) case Closed(_, _, rest) => Remainder(rest) case _ => s
  }

  /** Update from the closed items only. */
  function UpdateClosed(m: Params, s: string): Params
    decreases |s|
  {
    match First(s) case Closed(key, val, rest) => UpdateClosed(m[key := val], rest) case _ => m
  }

  // ---- updating in pieces ------------------------------------------------

  lemma {:induction false} IndexOfConcat(a: string, b: string, c: char)
    ensures IndexOf(a + b, c) == if IndexOf(a, c) < |a| then IndexOf(a, c) else |a| + IndexOf(b, c)
    decreases |a|
  {
    if a == "" {
      assert a + b == b;
    } else if a[0] != c {
      assert (a + b)[1..] == a[1..] + b;
      IndexOfConcat(a[1..], b, c);
    }
  }

  lemma IndexOfAbsent(s: string, c: char)
    requires c !in s
    ensures IndexOf(s, c) == |s|
  {
  }

  lemma FirstConcat(a: string, b: string)
    requires First(a).Closed?
    ensures First(a + b) == First(a).(rest := First(a).rest + b)
  {
    hide IndexOf;
    var eq := IndexOf(a, '=');
    var v := a[eq + 1..];
    var semi := IndexOf(v, ';');
    IndexOfConcat(a, b, '=');
    assert (a + b)[eq + 1..] == v + b && (a + b)[..eq] == a[..eq];
    IndexOfConcat(v, b, ';');
    assert (v + b)[semi + 1..] == v[semi + 1..] + b && (v + b)[..semi] == v[..semi];
  }

  /** Text arriving in two pieces: the closed items of the first are final, and
      its remainder is read together with the second. */
  lemma {:induction false} UpdateInPieces(m: Params, s1: string, s2: string)
    ensures Update(m, s1 + s2) == Update(UpdateClosed(m, s1), Remainder(s1) + s2)
    decreases |s1|
  {
    match First(s1)
    case Closed(key, val, rest) =>
      FirstConcat(s1, s2);
      UpdateInPieces(m[key := val], rest, s2);
    case _ =>
  }

  lemma {:induction false} UpdateOfClosed(m: Params, s: string)
    ensures Update(m, s) == match First(Remainder(s))
                            case Open(key, val) => UpdateClosed(m, s)[key := val]
                            case _ => UpdateClosed(m, s)
    ensures !First(Remainder(s)).Closed?
    decreases |s|
  {
    match First(s)
    case Closed(key, val, rest) => UpdateOfClosed(m[key := val], rest);
    case _ =>
  }

  /** Updating from a concatenation is updating twice, for every map and every
      second text, exactly when the first text ends with a closed item. */
  ghost predicate Composes(s1: string)
  {
    forall m, s2 {:trigger Update(m, s1 + s2)} :: Update(m, s1 + s2) == Update(Update(m, s1), s2)
  }

  lemma ComposesIffClosed(s1: string)
    ensures Composes(s1) <==> Remainder(s1) == ""
  {
    if Remainder(s1) == "" {
      forall m, s2 {:trigger Update(m, s1 + s2)}
        ensures Update(m, s1 + s2) == Update(Update(m, s1), s2)
      {
        UpdateInPieces(m, s1, s2);
        UpdateOfClosed(m, s1);
        assert "" + s2 == s2;
      }
    } else {
      UpdateOfClosed(map[], s1);
      if First(Remainder(s1)).Open? { OpenValueGrows(s1); } else { LooseKeyGrows(s1); }
    }
  }

  lemma FirstOpen(key: string, val: string)
    requires '=' !in key && ';' !in val
    ensures First(key + ("=" + val)) == Open(key, val)
  {
    var s := key + ("=" + val);
    IndexOfAbsent(key, '=');
    IndexOfConcat(key, "=" + val, '=');
    IndexOfAbsent(val, ';');
    assert s[..|key|] == key && s[|key| + 1..] == val;
  }

  lemma FirstClosed(key: string, val: string, rest: string)
    requires '=' !in key && ';' !in val
    ensures First(key + ("=" + (val + (";" + rest)))) == Closed(key, val, rest)
  {
    var v := val + (";" + rest);
    var s := key + ("=" + v);
    IndexOfAbsent(key, '=');
    IndexOfConcat(key, "=" + v, '=');
    assert s[..|key|] == key && s[|key| + 1..] == v;
    IndexOfAbsent(val, ';');
    IndexOfConcat(val, ";" + rest, ';');
    assert v[..|val|] == val && v[|val| + 1..] == rest;
  }

  lemma OpenText(r: string)
    requires First(r).Open?
    ensures r == First(r).key + ("=" + First(r).val)
  {
  }

  lemma OpenValueGrows(s1: string)
    requires First(Remainder(s1)).Open?
    ensures !Composes(s1)
  {
    hide First, Remainder, IndexOf;
    var r := Remainder(s1);
    var item := First(r);
    UpdateOfClosed(map[], s1);
    UpdateInPieces(map[], s1, "x");
    OpenText(r);
    assert ';' !in item.val && '=' !in item.key by { OpenParts(r); }
    FirstOpen(item.key, item.val + "x");
    assert r + "x" == item.key + ("=" + (item.val + "x"));
    assert First("x").NoItem? by { NoItems("x"); }
    assert Update(map[], s1 + "x")[item.key] == item.val + "x";
    assert Update(Update(map[], s1), "x")[item.key] == item.val;
  }

  lemma OpenParts(r: string)
    requires First(r).Open?
    ensures ';' !in First(r).val && '=' !in First(r).key
  {
  }

  lemma NoItems(s: string)
    ensures First(s).NoItem? <==> '=' !in s
  {
    if '=' !in s { IndexOfAbsent(s, '='); }
    if First(s).NoItem? { assert s[..|s|] == s; }
  }

  /** A string longer than `s` and free of separators. */
  function Longer(s: string): (y: string)
    ensures |y| > |s| && ';' !in y
  {
    seq(|s| + 1, _ => 'y')
  }

  lemma {:induction false} ValuesShort(m: Params, s: string, n: nat)
    requires |s| <= n && forall k <- m :: |m[k]| <= n
    ensures forall k <- UpdateClosed(m, s) :: |UpdateClosed(m, s)[k]| <= n
    decreases |s|
  {
    match First(s)
    case Closed(key, val, rest) => ValuesShort(m[key := val], rest, n);
    case _ =>
  }

  lemma LooseKeyGrows(s1: string)
    requires First(Remainder(s1)).NoItem? && Remainder(s1) != ""
    ensures !Composes(s1)
  {
    hide First, Remainder, IndexOf;
    var r, y := Remainder(s1), Longer(s1);
    var s2 := "" + ("=" + y);
    var base := UpdateClosed(map[], s1);
    UpdateOfClosed(map[], s1);
    UpdateInPieces(map[], s1, s2);
    ValuesShort(map[], s1, |s1|);
    NoItems(r);
    FirstOpen(r, y);
    FirstOpen("", y);
    assert r + s2 == r + ("=" + y);
    assert Update(map[], s1 + s2) == base[r := y];
    assert Update(Update(map[], s1), s2) == base["" := y];
    assert base[r := y][r] == y;
    assert r in base["" := y] ==> base["" := y][r] == base[r];
  }

  lemma UpdateOpen(m: Params, key: string, val: string)
    requires '=' !in key && ';' !in val
    ensures Update(m, key + ("=" + val)) == m[key := val]
  {
    hide First;
    FirstOpen(key, val);
  }

  lemma UpdateNothing(m: Params, s: string)
    requires '=' !in s
    ensures Update(m, s) == m && Remainder(s) == s
  {
    hide First;
    NoItems(s);
  }

  /** A text that is a lone ';' does not compose although it ends in one: the item
      behind it gets the key ";k". */
  lemma SemicolonDoesNotCompose()
    ensures Remainder(";") == ";" && !Composes(";")
    ensures Update(map[], ";" + "k=v") == map[";k" := "v"]
    ensures Update(Update(map[], ";"), "k=v") == map["k" := "v"]
  {
    hide *;
    UpdateNothing(map[], ";");
    ComposesIffClosed(";");
    UpdateOpen(map[], ";k", "v");
    UpdateOpen(map[], "k", "v");
    assert ";" + "k=v" == ";k" + ("=" + "v") && "k=v" == "k" + ("=" + "v");
  }

  // ---- writing, then updating --------------------------------------------

  function ItemText(key: string, val: string): string { key + ("=" + (val + ";")) }

  function ItemsText(items: seq<(string, string)>): string
  {
    if items == [] then "" else ItemText(items[0].0, items[0].1) + ItemsText(items[1..])
  }

  function SetAll(m: Params, items: seq<(string, string)>): Params
    decreases |items|
  {
    if items == [] then m else SetAll(m[items[0].0 := items[0].1], items[1..])
  }

  ghost predicate CleanItems(items: seq<(string, string)>)
  {
    forall i :: 0 <= i < |items| ==> '=' !in items[i].0 && ';' !in items[i].1
  }

  lemma {:induction false} UpdateItems(m: Params, items: seq<(string, string)>)
    requires CleanItems(items)
    ensures Update(m, ItemsText(items)) == SetAll(m, items)
    decreases |items|
  {
    hide First;
    if items == [] {
      NoItems("");
    } else {
      var key, val, rest := items[0].0, items[0].1, ItemsText(items[1..]);
      assert ItemsText(items) == key + ("=" + (val + (";" + rest)));
      FirstClosed(key, val, rest);
      UpdateItems(m[key := val], items[1..]);
    }
  }

  /** `ks` lists the keys of `m`, each once: std::map's order is one such list. */
  ghost predicate Lists(ks: seq<string>, m: Params)
  {
    && (forall k <- ks :: k in m) && (forall k <- m :: k in ks)
    && forall i, j :: 0 <= i < j < |ks| ==> ks[i] != ks[j]
  }

  function Items(m: Params, ks: seq<string>): seq<(string, string)>
    requires forall k <- ks :: k in m
  {
    if ks == [] then [] else [(ks[0], m[ks[0]])] + Items(m, ks[1..])
  }

  /** writeObject: the items of `m` for the keys `ks`, in that order. */
  function Write(m: Params, ks: seq<string>): string
    requires forall k <- ks :: k in m
  {
    ItemsText(Items(m, ks))
  }

  ghost predicate Clean(m: Params)
  {
    forall k <- m :: '=' !in k && ';' !in m[k]
  }

  function Restrict(m: Params, ks: seq<string>): Params
    requires forall k <- ks :: k in m
  {
    map k | k in ks :: m[k]
  }

  lemma RestrictStep(base: Params, m: Params, k: string, ks: seq<string>)
    requires ks != [] && k == ks[0] && forall k <- ks :: k in m
    ensures base[k := m[k]] + Restrict(m, ks[1..]) == base + Restrict(m, ks)
  {
    assert ks == [k] + ks[1..];
  }

  lemma {:induction false} SetAllMerges(base: Params, m: Params, ks: seq<string>)
    requires forall k <- ks :: k in m
    ensures SetAll(base, Items(m, ks)) == base + Restrict(m, ks)
    decreases |ks|
  {
    if ks != [] {
      var k := ks[0];
      SetAllMerges(base[k := m[k]], m, ks[1..]);
      RestrictStep(base, m, k, ks);
    }
  }

  lemma {:induction false} ItemsClean(m: Params, ks: seq<string>)
    requires (forall k <- ks :: k in m) && Clean(m)
    ensures CleanItems(Items(m, ks))
  {
    if ks != [] { ItemsClean(m, ks[1..]); }
  }

  /** Updating any parameters from what another object wrote merges exactly its
      map into them, whatever the order of writing, when its keys are free of '='
      and its values of ';'. */
  lemma UpdateMergesWritten(base: Params, m: Params, ks: seq<string>)
    requires Lists(ks, m) && Clean(m)
    ensures Update(base, Write(m, ks)) == base + m
  {
    ItemsClean(m, ks);
    UpdateItems(base, Items(m, ks));
    SetAllMerges(base, m, ks);
    assert Restrict(m, ks) == m;
  }

  lemma {:induction false} UpdatedIsClean(m: Params, s: string)
    requires Clean(m)
    ensures Clean(Update(m, s))
    decreases |s|
  {
    match First(s)
    case Closed(key, val, rest) => UpdatedIsClean(m[key := val], rest);
    case _ =>
  }

  /** The map is read back from its own text exactly when it is clean. */
  lemma WrittenReadsBack(m: Params, ks: seq<string>)
    requires Lists(ks, m)
    ensures Update(map[], Write(m, ks)) == m <==> Clean(m)
  {
    UpdatedIsClean(map[], Write(m, ks));
    if Clean(m) {
      UpdateMergesWritten(map[], m, ks);
      assert map[] + m == m;
    }
  }

  // ---- setParameters -----------------------------------------------------

  /** Update overrides: what the text says does not depend on the map. */
  lemma {:induction false} UpdateOverrides(m: Params, s: string)
    ensures Update(m, s) == m + Update(map[], s)
    decreases |s|
  {
    hide First;
    match First(s)
    case NoItem =>
    case Open(key, val) =>
    case Closed(key, val, rest) =>
      UpdateOverrides(m[key := val], rest);
      UpdateOverrides(map[key := val], rest);
  }

  const RATE := "preview-frame-rate"
  const RANGE := "preview-fps-range"

  function Lookup(m: Params, key: string): string { if key in m then m[key] else "" }

  predicate FixedRate(m: Params) { Lookup(m, RATE) == "30" && Lookup(m, RANGE) == "30000,30000" }

  /** validate, on a fresh object. */
  predicate Validate(s: string) { FixedRate(Update(map[], s)) }

  /** setParameters: the new map and whether the text was accepted. */
  function SetParameters(m: Params, s: string): (Params, bool)
  {
    if Validate(s) then (Update(m, s), true) else (m, false)
  }

  const USED: seq<(string, string)> := [
    ("preview-size", "1280x720"),
    ("preferred-preview-size-for-video", "1280x720"),
    (RATE, "30"),
    (RANGE, "30000,30000"),
    ("preview-format", "nv12-venus"),
    ("video-hfr", "off"),
    ("video-hsr", "off"),
    ("video-size", "3840x2160"),
    ("recording-hint", "true")]

  const SUPPORTED: seq<(string, string)> := [
    ("preview-fps-range-values", "(30000,30000)"),
    ("preview-frame-rate-values", "30"),
    ("preview-format-values", "nv12-venus"),
    ("video-hfr-values", "off")]

  lemma {:induction false} SetAllKeeps(m: Params, items: seq<(string, string)>, key: string)
    requires forall i <- items :: i.0 != key
    ensures Lookup(SetAll(m, items), key) == Lookup(m, key)
    decreases |items|
  {
    if items != [] { SetAllKeeps(m[items[0].0 := items[0].1], items[1..], key); }
  }

  lemma {:induction false} SetAllSets(m: Params, items: seq<(string, string)>, j: nat)
    requires j < |items| && forall i :: j < i < |items| ==> items[i].0 != items[j].0
    ensures Lookup(SetAll(m, items), items[j].0) == items[j].1
    decreases |items|
  {
    var m' := m[items[0].0 := items[0].1];
    if j == 0 {
      SetAllKeeps(m', items[1..], items[0].0);
    } else {
      SetAllSets(m', items[1..], j - 1);
    }
  }

  lemma UsedIsClean()
    ensures CleanItems(USED)
  {
  }

  lemma SupportedIsClean()
    ensures CleanItems(SUPPORTED)
  {
  }

  /** What init leaves in the caller-facing parameters, from any device text. */
  function Init(device: string): Params
  {
    Update(Update(Update(map[], device), ItemsText(USED)), ItemsText(SUPPORTED))
  }

  lemma TableRates(m: Params)
    ensures Lookup(SetAll(m, USED), RATE) == "30"
    ensures Lookup(SetAll(m, USED), RANGE) == "30000,30000"
  {
    hide SetAll, Lookup;
    assert |RATE| == 18 && |RANGE| == 17;
    assert USED[2] == (RATE, "30") && USED[3] == (RANGE, "30000,30000");
    assert forall i :: 3 < i < |USED| ==> |USED[i].0| < 17;
    SetAllSets(m, USED, 2);
    SetAllSets(m, USED, 3);
  }

  lemma SupportedKeepsRates(m: Params)
    ensures Lookup(SetAll(m, SUPPORTED), RATE) == Lookup(m, RATE)
    ensures Lookup(SetAll(m, SUPPORTED), RANGE) == Lookup(m, RANGE)
  {
    hide SetAll, Lookup;
    assert |RATE| == 18 && |RANGE| == 17;
    assert forall i <- SUPPORTED :: |i.0| != 18 && |i.0| != 17;
    SetAllKeeps(m, SUPPORTED, RATE);
    SetAllKeeps(m, SUPPORTED, RANGE);
  }

  lemma InitFixesRate(device: string)
    ensures FixedRate(Init(device))
  {
    hide Update, SetAll, Lookup, ItemsText;
    var m := Update(map[], device);
    UsedIsClean();
    SupportedIsClean();
    UpdateItems(m, USED);
    UpdateItems(SetAll(m, USED), SUPPORTED);
    TableRates(m);
    SupportedKeepsRates(SetAll(m, USED));
  }

  /** The parameters after a sequence of setParameters calls. */
  function AfterCalls(m: Params, texts: seq<string>): Params
  {
    if texts == [] then m
    else SetParameters(AfterCalls(m, texts[..|texts| - 1]), texts[|texts| - 1]).0
  }

  /** In every state reachable from init, whatever the device reports and whatever
      texts are set, the stored rate is "30" and the range "30000,30000". */
  lemma {:induction false} RateStaysFixed(device: string, texts: seq<string>)
    ensures FixedRate(AfterCalls(Init(device), texts))
  {
    if texts == [] {
      InitFixesRate(device);
    } else {
      var m, s := AfterCalls(Init(device), texts[..|texts| - 1]), texts[|texts| - 1];
      RateStaysFixed(device, texts[..|texts| - 1]);
      UpdateOverrides(m, s);
    }
  }

  /** setParameters on a text: whole or not at all.  It is refused exactly when the
      text does not itself fix the rate, and then no key changes; otherwise every key
      the text sets gets its value there and every other key keeps its own. */
  lemma SetsAllOrNothing(m: Params, s: string, key: string)
    ensures var (n, ok), said := SetParameters(m, s), Update(map[], s);
            && (ok <==> FixedRate(said))
            && (key in n <==> key in m || (ok && key in said))
            && (key in n ==> n[key] == if ok && key in said then said[key] else m[key])
  {
    hide Update, Lookup;
    UpdateOverrides(m, s);
  }

  /** ... so from another object with clean entries it takes over that object's map
      exactly when that fixes the rate. */
  lemma SetFromObject(m: Params, w: Params, ks: seq<string>)
    requires Lists(ks, w) && Clean(w)
    ensures SetParameters(m, Write(w, ks)) == if FixedRate(w) then (m + w, true) else (m, false)
  {
    hide Update, Lookup, Write;
    UpdateMergesWritten(map[], w, ks);
    UpdateMergesWritten(m, w, ks);
    assert map[] + w == w;
  }

  // ---- the object --------------------------------------------------------

  method Strchr(s: string, from: nat, c: char) returns (n: nat)
    requires from <= |s|
    ensures n == from + IndexOf(s[from..], c) <= |s|
  {
    n := from;
    while n < |s| && s[n] != c
      invariant from <= n <= |s|
      invariant n + IndexOf(s[n..], c) == from + IndexOf(s[from..], c)
    {
      assert s[n..][1..] == s[n + 1..];
      n := n + 1;
    }
  }

  lemma NoItemAt(s: string, a: nat)
    requires a <= |s| && a + IndexOf(s[a..], '=') == |s|
    ensures First(s[a..]).NoItem?
  {
  }

  /** The first item at `a`, with its '=' at `b` and its ';' at `e`. */
  lemma FirstAt(s: string, a: nat, b: nat, e: nat)
    requires a <= b < |s| && b == a + IndexOf(s[a..], '=')
    requires b < e <= |s| && e == b + 1 + IndexOf(s[b + 1..], ';')
    ensures First(s[a..]) == if e == |s| then Open(s[a..b], s[b + 1..])
                             else Closed(s[a..b], s[b + 1..e], s[e + 1..])
  {
    hide IndexOf;
    var t, eq := s[a..], b - a;
    assert t[..eq] == s[a..b] && t[eq + 1..] == s[b + 1..];
    var v, semi := s[b + 1..], e - b - 1;
    assert e < |s| ==> v[..semi] == s[b + 1..e] && v[semi + 1..] == s[e + 1..];
  }

  lemma WriteAppend(m: Params, ks: seq<string>, k: string)
    requires (forall x <- ks :: x in m) && k in m
    ensures forall x <- ks + [k] :: x in m
    ensures Write(m, ks + [k]) == Write(m, ks) + ItemText(k, m[k])
  {
    if ks == [] {
      assert [] + [k] == [k];
      assert Items(m, [k]) == [(k, m[k])];
    } else {
      assert (ks + [k])[1..] == ks[1..] + [k];
      WriteAppend(m, ks[1..], k);
    }
  }

  class CameraVirtualParams {
    var keyval: Params

    constructor ()
      ensures keyval == map[]
    {
      keyval := map[];
    }

    method UpdateFrom(params: string)
      modifies this
      ensures keyval == Update(old(keyval), params)
    {
      hide IndexOf, First;
      var a := 0;
      assert params[0..] == params;
      while true
        invariant a <= |params|
        invariant Update(keyval, params[a..]) == Update(old(keyval), params)
        decreases |params| - a
      {
        var b := Strchr(params, a, '=');
        if b == |params| {
          NoItemAt(params, a);
          return;
        }
        var e := Strchr(params, b + 1, ';');
        FirstAt(params, a, b, e);
        var k := params[a..b];
        if e == |params| {
          keyval := keyval[k := params[b + 1..]];
          return;
        }
        keyval := keyval[k := params[b + 1..e]];
        a := e + 1;
      }
    }

    method WriteObject() returns (text: string)
      ensures exists ks :: Lists(ks, keyval) && text == Write(keyval, ks)
    {
      text := "";
      ghost var ks: seq<string> := [];
      var left := keyval.Keys;
      while left != {}
        invariant left <= keyval.Keys
        invariant forall k :: k in keyval <==> k in ks || k in left
        invariant forall k <- ks :: k !in left
        invariant forall i, j :: 0 <= i < j < |ks| ==> ks[i] != ks[j]
        invariant text == Write(keyval, ks)
        decreases left
      {
        var k :| k in left;
        WriteAppend(keyval, ks, k);
        text := text + ItemText(k, keyval[k]);
        ks := ks + [k];
        left := left - {k};
      }
    }

    /** setParameters with the text another object wrote. */
    method SetFrom(text: string) returns (ok: bool)
      modifies this
      ensures (keyval, ok) == SetParameters(old(keyval), text)
    {
      var params := new CameraVirtualParams();
      params.UpdateFrom(text);
      ok := FixedRate(params.keyval);
      if ok { UpdateFrom(text); }
    }
  }
}
