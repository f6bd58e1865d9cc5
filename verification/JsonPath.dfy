// Dotted paths over the tree: LookupSegment, PathGet, PathSet and
// CreatePathObjects (src/json/jstree.cpp).
module JsonPath {
  import opened Common
  import opened JsonChars
  import opened JsonValue
  import opened Decimal

  // ---- path strings ------------------------------------------------------

  /** Bytes before the first '.', or all of them. */
  function SegLen(p: string): (n: nat)
    ensures n <= |p|
    ensures n < |p| ==> p[n] == '.'
    ensures '.' !in p[..n]
  {
    if p == "" || p[0] == '.' then 0
    else
      assert p[..1 + SegLen(p[1..])] == [p[0]] + p[1..][..SegLen(p[1..])];
      1 + SegLen(p[1..])
  }

  function Seg(p: string): string { p[..SegLen(p)] }

  predicate More(p: string) { SegLen(p) < |p| }

  function Rest(p: string): (r: string)
    requires More(p)
    ensures |r| < |p|
  {
    p[SegLen(p) + 1..]
  }

  /** The digits of `seg` read into an unsigned 32-bit number, which wraps. */
  function Uint(seg: string, num: nat): (r: Option<nat>)
    requires num < 0x1_0000_0000
    ensures r.Some? ==> r.value < 0x1_0000_0000
  {
    if seg == "" then Some(num)
    else if IsDigit(seg[0]) then
      Uint(seg[1..], (10 * num + (seg[0] as int - '0' as int)) % 0x1_0000_0000)
    else None
  }

  /** ReadUintFromPath: an empty segment is no index. */
  function Index(seg: string): Option<nat>
  {
    if seg == "" then None else Uint(seg, 0)
  }

  /** Whether `seg`, if it reads as an index, stays non-negative as a C int. */
  predicate IndexFits(seg: string)
  {
    Index(seg).Some? ==> Index(seg).value < 0x8000_0000
  }

  // ---- lookup ------------------------------------------------------------

  /** `Wild` is an array index of 2^31 or more: the cast to int makes it negative
      and the source indexes out of bounds, so it has no result here. */
  datatype Found = Hit(k: nat) | NoEntry | Invalid | Wild

  function FirstMatch(pairs: seq<JSPair>, key: string): (r: Option<nat>)
    ensures r.Some? ==> r.value < |pairs| && CStr(pairs[r.value].key) == key
    ensures r.Some? ==> forall j :: 0 <= j < r.value ==> CStr(pairs[j].key) != key
    ensures r.None? ==> forall j :: 0 <= j < |pairs| ==> CStr(pairs[j].key) != key
  {
    if pairs == [] then None
    else if CStr(pairs[0].key) == key then Some(0)
    else match FirstMatch(pairs[1..], key)
      case None => None
      case Some(k) => Some(k + 1)
  }

  function LookupSegment(v: JSValue, seg: string): (r: Found)
    ensures r.Hit? ==> r.k < Size(v)
  {
    match v
    case JObject(pairs) =>
      (match FirstMatch(pairs, seg) case Some(k) => Hit(k) case None => NoEntry)
    case JArray(values) =>
      (match Index(seg)
       case None => Invalid
       case Some(k) =>
         if !IndexFits(seg) then Wild else if k < |values| then Hit(k) else NoEntry)
    case _ => Invalid
  }

  function Size(v: JSValue): nat
  {
    match v case JObject(pairs) => |pairs| case JArray(values) => |values| case _ => 0
  }

  function Child(v: JSValue, k: nat): (c: JSValue)
    requires k < Size(v)
    ensures c < v
  {
    match v case JObject(pairs) => pairs[k].value case JArray(values) => values[k]
  }

  function WithChild(v: JSValue, k: nat, c: JSValue): (w: JSValue)
    requires k < Size(v)
    ensures Size(w) == Size(v) && Child(w, k) == c
    ensures forall j :: 0 <= j < Size(v) && j != k ==> Child(w, j) == Child(v, j)
    ensures w.JObject? <==> v.JObject?
    ensures w.JArray? <==> v.JArray?
  {
    match v
    case JObject(pairs) => JObject(pairs[k := pairs[k].(value := c)])
    case JArray(values) => JArray(values[k := c])
  }

  /** The children's positions a path goes through, when it resolves. */
  function Resolve(v: JSValue, p: string): Option<seq<nat>>
    decreases |p|
  {
    match LookupSegment(v, Seg(p))
    case Hit(k) =>
      if More(p) then
        match Resolve(Child(v, k), Rest(p)) case None => None case Some(steps) => Some([k] + steps)
      else Some([k])
    case _ => None
  }

  /** PathGet; a path through a scalar fails. */
  function PathGet(v: JSValue, p: string): Option<JSValue>
    decreases |p|
  {
    match LookupSegment(v, Seg(p))
    case Hit(k) => if More(p) then PathGet(Child(v, k), Rest(p)) else Some(Child(v, k))
    case _ => None
  }

  // ---- which number a segment denotes ------------------------------------

  const WORD: nat := 0x1_0000_0000

  lemma ModTimes(x: nat, p: nat, n: nat)
    ensures (x % WORD * p + n) % WORD == (x * p + n) % WORD
  {
    var q, r := x / WORD, x % WORD;
    assert x * p == (WORD * q + r) * p == WORD * (q * p) + r * p;
    ModPlus(r * p + n, q * p);
  }

  lemma ModPlus(a: nat, k: nat)
    ensures (a + WORD * k) % WORD == a % WORD
  {
  }

  lemma FirstDigit(d: string)
    requires Digits(d) && d != ""
    ensures Digits(d[1..]) && Nat(d) == DigitValue(d[0]) * Pow10(|d| - 1) + Nat(d[1..])
  {
    var c := [d[0]];
    assert d == c + d[1..];
    assert c[..0] == "" && Nat(c) == DigitValue(d[0]);
    NatConcat(c, d[1..]);
  }

  lemma TenTimesPlus(num: nat, v: nat, p: nat, n: nat)
    ensures (10 * num + v) * p + n == num * (10 * p) + (v * p + n)
  {
  }

  /** One digit taken from the front. */
  lemma UintStep(d: string, num: nat)
    requires Digits(d) && d != ""
    ensures var m := (10 * num + DigitValue(d[0])) % WORD;
            Digits(d[1..]) && (m * Pow10(|d| - 1) + Nat(d[1..])) % WORD == (num * Pow10(|d|) + Nat(d)) % WORD
  {
    hide Nat;
    var v, p := DigitValue(d[0]), Pow10(|d| - 1);
    FirstDigit(d);
    ModTimes(10 * num + v, p, Nat(d[1..]));
    TenTimesPlus(num, v, p, Nat(d[1..]));
  }

  lemma {:induction false} UintIs(d: string, num: nat)
    requires num < WORD
    ensures Uint(d, num) == if Digits(d) then Some((num * Pow10(|d|) + Nat(d)) % WORD) else None
    decreases |d|
  {
    hide Nat, Pow10, Digits;
    if d == "" {
      UintEnd(num);
    } else {
      DigitsCons(d);
      if IsDigit(d[0]) { UintIs(d[1..], (10 * num + DigitValue(d[0])) % WORD); }
      if Digits(d) { UintStep(d, num); }
    }
  }

  lemma UintEnd(num: nat)
    requires num < WORD
    ensures Digits("") && (num * Pow10(0) + Nat("")) % WORD == num
  {
  }

  lemma DigitsCons(d: string)
    requires d != ""
    ensures Digits(d) <==> IsDigit(d[0]) && Digits(d[1..])
  {
    if Digits(d[1..]) { assert forall k :: 1 <= k < |d| ==> d[k] == d[1..][k - 1]; }
  }

  /** A segment is an index exactly when it is all digits, and denotes its decimal
      value modulo 2^32. */
  lemma IndexIsDecimal(seg: string)
    ensures Index(seg) == if seg != "" && Digits(seg) then Some(Nat(seg) % WORD) else None
  {
    UintIs(seg, 0);
  }

  lemma {:induction false} SegOfDotless(p: string)
    requires '.' !in p
    ensures SegLen(p) == |p| && Seg(p) == p
  {
    if p != "" { SegOfDotless(p[1..]); }
  }

  /** The path that writes `k` in decimal gets element `k`. */
  lemma GetByDecimal(values: seq<JSValue>, k: nat)
    requires k < 0x8000_0000
    ensures PathGet(JArray(values), Dec(k)) == if k < |values| then Some(values[k]) else None
  {
    hide Uint, Dec, Nat, SegLen;
    SegOfDotless(Dec(k));
    IndexIsDecimal(Dec(k));
  }

  // ---- update ------------------------------------------------------------

  function Nulls(n: nat): (r: seq<JSValue>)
    ensures |r| == n && forall j :: 0 <= j < n ==> r[j] == JNull
  {
    if n == 0 then [] else Nulls(n - 1) + [JNull]
  }

  /** ArraySet at or past the end: the gap is filled with nulls. */
  function ArrayExtend(values: seq<JSValue>, k: nat, x: JSValue): seq<JSValue>
    requires |values| <= k
  {
    values + Nulls(k - |values|) + [x]
  }

  /** A new container holding `x` under `seg`: an array when `seg` is an index. */
  function Single(seg: string, x: JSValue): JSValue
  {
    match Index(seg)
    case Some(k) => JArray(ArrayExtend([], k, x))
    case None => JObject([JSPair(seg, x)])
  }

  /** No later segment makes CreatePathObjects use a negative index. */
  predicate Buildable(p: string)
    decreases |p|
  {
    More(p) ==> IndexFits(Seg(Rest(p))) && Buildable(Rest(p))
  }

  /** The value CreatePathObjects ends up putting under the first segment: `x`
      wrapped once for every later segment, the last one innermost. */
  function Wrapped(p: string, x: JSValue): JSValue
    decreases |p|
  {
    if More(p) then Single(Seg(Rest(p)), Wrapped(Rest(p), x)) else x
  }

  /** CreatePathObjects on a container that has no entry for the first segment. */
  function Extend(v: JSValue, p: string, x: JSValue): JSValue
    requires LookupSegment(v, Seg(p)).NoEntry?
  {
    match v
    case JObject(pairs) => JObject(pairs + [JSPair(Seg(p), Wrapped(p, x))])
    case JArray(values) => JArray(ArrayExtend(values, Index(Seg(p)).value, Wrapped(p, x)))
  }

  function PathSet(v: JSValue, p: string, x: JSValue): Option<JSValue>
    decreases |p|
  {
    match LookupSegment(v, Seg(p))
    case Hit(k) =>
      if More(p) then
        match PathSet(Child(v, k), Rest(p), x)
        case None => None
        case Some(c) => Some(WithChild(v, k, c))
      else Some(WithChild(v, k, x))
    case NoEntry => if Buildable(p) then Some(Extend(v, p, x)) else None
    case _ => None
  }

  // ---- set, then get -----------------------------------------------------

  lemma CStrOfSegment(p: string)
    requires NUL !in p
    ensures CStr(Seg(p)) == Seg(p)
    ensures More(p) ==> NUL !in Rest(p)
  {
    CStrOfNulFree(Seg(p));
  }

  lemma GetSingle(p: string, x: JSValue)
    requires NUL !in p && IndexFits(Seg(p))
    ensures LookupSegment(Single(Seg(p), x), Seg(p)).Hit?
    ensures var k := LookupSegment(Single(Seg(p), x), Seg(p)).k; Child(Single(Seg(p), x), k) == x
  {
    CStrOfSegment(p);
  }

  lemma {:induction false} GetWrapped(p: string, x: JSValue)
    requires NUL !in p && More(p) && Buildable(p)
    ensures PathGet(Wrapped(p, x), Rest(p)) == Some(x)
    decreases |p|
  {
    CStrOfSegment(p);
    var q := Rest(p);
    GetSingle(q, Wrapped(q, x));
    if More(q) { GetWrapped(q, x); }
  }

  /** Lookups that hit before an update by extension still hit the same place. */
  lemma ExtendKeeps(v: JSValue, p: string, x: JSValue, seg: string)
    requires LookupSegment(v, Seg(p)).NoEntry? && LookupSegment(v, seg).Hit?
    ensures var k := LookupSegment(v, seg).k;
            LookupSegment(Extend(v, p, x), seg) == Hit(k) && Child(Extend(v, p, x), k) == Child(v, k)
  {
    if v.JObject? { MatchKept(v.pairs, [JSPair(Seg(p), Wrapped(p, x))], seg); }
  }

  lemma {:induction false} MatchKept(pairs: seq<JSPair>, more: seq<JSPair>, key: string)
    ensures FirstMatch(pairs, key).Some? ==> FirstMatch(pairs + more, key) == FirstMatch(pairs, key)
  {
    var a, b := FirstMatch(pairs, key), FirstMatch(pairs + more, key);
    if a.Some? {
      assert CStr((pairs + more)[a.value].key) == key;
      assert forall j :: 0 <= j < a.value ==> (pairs + more)[j] == pairs[j];
    }
  }

  /** ... and the extended container now has the new entry, at its end. */
  lemma ExtendHits(v: JSValue, p: string, x: JSValue)
    requires NUL !in p && LookupSegment(v, Seg(p)).NoEntry?
    ensures var w := Extend(v, p, x);
            && LookupSegment(w, Seg(p)) == Hit(Size(w) - 1) && Size(v) < Size(w)
            && Child(w, Size(w) - 1) == Wrapped(p, x)
  {
    CStrOfSegment(p);
    if v.JObject? {
      var all := v.pairs + [JSPair(Seg(p), Wrapped(p, x))];
      assert CStr(all[|v.pairs|].key) == Seg(p);
      assert forall j :: 0 <= j < |v.pairs| ==> all[j] == v.pairs[j];
    }
  }

  /** Replacing a child changes no lookup in its container. */
  lemma WithChildLookup(v: JSValue, k: nat, c: JSValue, seg: string)
    requires k < Size(v)
    ensures LookupSegment(WithChild(v, k, c), seg) == LookupSegment(v, seg)
  {
    if v.JObject? {
      var w := WithChild(v, k, c).pairs;
      assert forall j :: 0 <= j < |w| ==> w[j].key == v.pairs[j].key;
    }
  }

  /** What PathSet stored, PathGet finds, also through objects and null-padded
      arrays that PathSet had to create. */
  lemma {:induction false} SetThenGet(v: JSValue, p: string, x: JSValue)
    requires NUL !in p && PathSet(v, p, x).Some?
    ensures PathGet(PathSet(v, p, x).value, p) == Some(x)
    decreases |p|
  {
    CStrOfSegment(p);
    match LookupSegment(v, Seg(p))
    case Hit(k) =>
      if More(p) {
        SetThenGet(Child(v, k), Rest(p), x);
        WithChildLookup(v, k, PathSet(Child(v, k), Rest(p), x).value, Seg(p));
      } else {
        WithChildLookup(v, k, x, Seg(p));
      }
    case NoEntry =>
      ExtendHits(v, p, x);
      if More(p) { GetWrapped(p, x); }
  }

  /** PathGet follows exactly the steps Resolve reports. */
  lemma {:induction false} ResolveIffGet(v: JSValue, p: string)
    ensures Resolve(v, p).Some? <==> PathGet(v, p).Some?
    ensures Resolve(v, p).Some? ==> |Resolve(v, p).value| > 0
    decreases |p|
  {
    match LookupSegment(v, Seg(p))
    case Hit(k) => if More(p) { ResolveIffGet(Child(v, k), Rest(p)); }
    case _ =>
  }

  /** Every path that resolved before, and whose steps part from those `p` takes
      afterwards, still takes the same steps to the same value. */
  lemma {:induction false} SetKeepsOthers(v: JSValue, p: string, x: JSValue, q: string)
    requires NUL !in p && PathSet(v, p, x).Some? && Resolve(v, q).Some?
    requires var w := PathSet(v, p, x).value;
             Resolve(w, p).Some? ==>
               !(Resolve(w, p).value <= Resolve(v, q).value) && !(Resolve(v, q).value <= Resolve(w, p).value)
    ensures var w := PathSet(v, p, x).value;
            Resolve(w, q) == Resolve(v, q) && PathGet(w, q) == PathGet(v, q)
    decreases |p|
  {
    var w := PathSet(v, p, x).value;
    SetThenGet(v, p, x);
    ResolveIffGet(w, p);
    var kq := LookupSegment(v, Seg(q)).k;
    match LookupSegment(v, Seg(p))
    case NoEntry =>
      ExtendKeeps(v, p, x, Seg(q));
    case Hit(k) =>
      var c := if More(p) then PathSet(Child(v, k), Rest(p), x).value else x;
      WithChildLookup(v, k, c, Seg(q));
      WithChildLookup(v, k, c, Seg(p));
      if k == kq {
        assert More(p) && More(q) by { SameFirstStep(v, w, p, q, k); }
        DropFirstStep(w, v, p, q, k);
        SetKeepsOthers(Child(v, k), Rest(p), x, Rest(q));
      }
  }

  lemma SameFirstStep(v: JSValue, w: JSValue, p: string, q: string, k: nat)
    requires LookupSegment(w, Seg(p)) == Hit(k) == LookupSegment(v, Seg(q))
    requires Resolve(w, p).Some? && Resolve(v, q).Some?
    requires !(Resolve(w, p).value <= Resolve(v, q).value) && !(Resolve(v, q).value <= Resolve(w, p).value)
    ensures More(p) && More(q)
  {
    var a, b := Resolve(w, p).value, Resolve(v, q).value;
    assert a[0] == k && b[0] == k;
    assert |a| == 1 ==> a <= b;
    assert |b| == 1 ==> b <= a;
  }

  lemma DropFirstStep(w: JSValue, v: JSValue, p: string, q: string, k: nat)
    requires More(p) && More(q)
    requires LookupSegment(w, Seg(p)) == Hit(k) == LookupSegment(v, Seg(q))
    requires Resolve(w, p).Some? && Resolve(v, q).Some?
    requires !(Resolve(w, p).value <= Resolve(v, q).value) && !(Resolve(v, q).value <= Resolve(w, p).value)
    ensures var a, b := Resolve(Child(w, k), Rest(p)), Resolve(Child(v, k), Rest(q));
            a.Some? && b.Some? && !(a.value <= b.value) && !(b.value <= a.value)
  {
    var a, b := Resolve(Child(w, k), Rest(p)).value, Resolve(Child(v, k), Rest(q)).value;
    assert Resolve(w, p).value == [k] + a && Resolve(v, q).value == [k] + b;
    assert a <= b ==> [k] + a <= [k] + b;
    assert b <= a ==> [k] + b <= [k] + a;
  }

  // ---- the loops over the path string ------------------------------------

  /** memchr: the first '.' at or behind `from`, or the end of the path. */
  method NextDot(path: string, from: nat) returns (dot: nat)
    requires from <= |path|
    ensures from <= dot <= |path| && path[from..dot] == Seg(path[from..])
    ensures More(path[from..]) <==> dot < |path|
    ensures dot < |path| ==> path[dot + 1..] == Rest(path[from..])
  {
    dot := from;
    while dot < |path| && path[dot] != '.'
      invariant from <= dot <= |path|
      invariant dot + SegLen(path[dot..]) == from + SegLen(path[from..])
    {
      assert path[dot..][1..] == path[dot + 1..];
      dot := dot + 1;
    }
  }

  lemma NotContainer(v: JSValue, path: string)
    requires !v.JObject? && !v.JArray?
    ensures PathGet(v, path) == None
  {
  }

  method FollowPath(root: JSValue, path: string) returns (r: Option<JSValue>)
    ensures r == PathGet(root, path)
  {
    hide LookupSegment, Child, SegLen, Seg, Rest, More;
    if !root.JObject? && !root.JArray? { NotContainer(root, path); return None; }
    var v, nConsumed := root, 0;
    assert path[0..] == path;
    while true
      invariant nConsumed <= |path|
      invariant PathGet(v, path[nConsumed..]) == PathGet(root, path)
      decreases |path| - nConsumed
    {
      var rest := path[nConsumed..];
      var dot := NextDot(path, nConsumed);
      match LookupSegment(v, path[nConsumed..dot]) {
        case Hit(k) => v := Child(v, k);
        case _ => return None;
      }
      if dot == |path| { return Some(v); }
      nConsumed := dot + 1;
    }
  }

  /** memrchr: the last '.' before `end`, or -1. */
  method LastDot(path: string, end: nat) returns (dot: int)
    requires end <= |path|
    ensures -1 <= dot < end && (dot >= 0 ==> path[dot] == '.')
    ensures '.' !in path[dot + 1..end]
  {
    dot := end - 1;
    while dot >= 0 && path[dot] != '.'
      invariant -1 <= dot < end
      invariant forall k :: dot < k < end ==> path[k] != '.'
    {
      dot := dot - 1;
    }
    NoDotBetween(path, dot + 1, end);
  }

  lemma NoDotBetween(path: string, from: nat, to: nat)
    requires from <= to <= |path| && forall k :: from <= k < to ==> path[k] != '.'
    ensures '.' !in path[from..to]
  {
  }

  lemma {:induction false} SegLenWhole(p: string)
    requires '.' !in p
    ensures SegLen(p) == |p|
  {
    if p != "" { SegLenWhole(p[1..]); }
  }

  lemma {:induction false} SegLenOfConcat(a: string, b: string)
    ensures SegLen(a + "." + b) == SegLen(a)
  {
    var p := a + "." + b;
    if a == "" || a[0] == '.' {
      assert p[0] == (a + ".")[0];
    } else {
      SegLenOfConcat(a[1..], b);
      assert p[1..] == a[1..] + "." + b;
    }
  }

  lemma SegOfConcat(a: string, b: string)
    ensures SegLen(a + "." + b) == SegLen(a)
    ensures Seg(a + "." + b) == Seg(a) && More(a + "." + b)
    ensures Rest(a + "." + b) == if More(a) then Rest(a) + "." + b else b
  {
    hide SegLen;
    SegLenOfConcat(a, b);
    var p, n := a + "." + b, SegLen(a);
    assert p[..n] == a[..n];
    if More(a) { assert p[n + 1..] == a[n + 1..] + "." + b; } else { assert p[n + 1..] == b; }
  }

  /** Peeling off the last segment: the outermost wrappers come from the front. */
  lemma {:induction false} WrapLast(a: string, seg: string, x: JSValue)
    requires '.' !in seg
    ensures Buildable(a + "." + seg) <==> Buildable(a) && IndexFits(seg)
    ensures Wrapped(a + "." + seg, x) == Wrapped(a, Single(seg, x))
    decreases |a|
  {
    SegOfConcat(a, seg);
    SegLenWhole(seg);
    assert Seg(seg) == seg;
    if More(a) {
      SegOfConcat(Rest(a), seg);
      WrapLast(Rest(a), seg, x);
    }
  }

  /** What cutting off the last segment does to the part of the path still to be read. */
  lemma CutLast(path: string, dot: nat, end: nat, x: JSValue)
    requires dot < end <= |path| && path[dot] == '.' && '.' !in path[dot + 1..end]
    ensures var seg := path[dot + 1..end];
            && Seg(path[..dot]) == Seg(path[..end])
            && (Buildable(path[..end]) <==> Buildable(path[..dot]) && IndexFits(seg))
            && Wrapped(path[..end], x) == Wrapped(path[..dot], Single(seg, x))
  {
    hide Seg, Buildable, Wrapped, Single, IndexFits;
    var seg := path[dot + 1..end];
    assert path[..end] == path[..dot] + "." + seg;
    WrapLast(path[..dot], seg, x);
    SegOfConcat(path[..dot], seg);
  }

  lemma LastSegment(p: string, v: JSValue, path: string, pv: JSValue, x: JSValue)
    requires '.' !in p && Seg(p) == Seg(path) && Buildable(p) == Buildable(path)
    requires Buildable(path) ==> Wrapped(p, pv) == Wrapped(path, x)
    requires LookupSegment(v, Seg(path)).NoEntry?
    ensures Buildable(path) && p == Seg(path) && pv == Wrapped(path, x)
  {
    hide LookupSegment;
    SegLenWhole(p);
  }

  /** CreatePathObjects scans the path from its end, wrapping the value once per
      segment, and puts the result under the first segment of the container. */
  method CreatePathObjects(v: JSValue, path: string, x: JSValue) returns (r: Option<JSValue>)
    requires LookupSegment(v, Seg(path)).NoEntry?
    ensures r == if Buildable(path) then Some(Extend(v, path, x)) else None
  {
    hide Seg, Buildable, Wrapped, Single, IndexFits, ArrayExtend, FirstMatch, Index;
    var pv, end := x, |path|;
    assert path[..end] == path;
    while true
      invariant end <= |path| && Seg(path[..end]) == Seg(path)
      invariant Buildable(path[..end]) == Buildable(path)
      invariant Buildable(path) ==> Wrapped(path[..end], pv) == Wrapped(path, x)
      decreases end
    {
      var dot := LastDot(path, end);
      if dot < 0 {
        LastSegment(path[..end], v, path, pv, x);
        r := Some(match v
                  case JObject(pairs) => JObject(pairs + [JSPair(path[..end], pv)])
                  case JArray(values) => JArray(ArrayExtend(values, Index(path[..end]).value, pv)));
        return;
      }
      var seg := path[dot + 1..end];
      CutLast(path, dot, end, pv);
      if !IndexFits(seg) { return None; }
      pv := Single(seg, pv);
      end := dot;
    }
  }
}
