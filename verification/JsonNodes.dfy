// Container nodes of src/json/jstree.cpp, whose arrays are grown and changed in
// place: ArraySet, ObjectSetInternal, and CloneValue, which rebuilds objects
// with ObjectSet.
module JsonNodes {
  import opened Common
  import opened JsonChars
  import opened JsonValue
  import opened JsonPath

  // ---- what the updates mean ---------------------------------------------

  /** ArraySet with a value.  It cuts the array behind the place it sets. */
  function ArrayPut(values: seq<JSValue>, k: nat, x: JSValue): seq<JSValue>
  {
    if k < |values| then values[..k] + [x] else ArrayExtend(values, k, x)
  }

  /** What every index holds afterwards, behind the old end too: the new value is last,
      the elements before it stay, and a gap is nulls. */
  lemma PutHolds(values: seq<JSValue>, k: nat, x: JSValue)
    ensures var r := ArrayPut(values, k, x);
            && |r| == k + 1 && r[k] == x
            && forall j :: 0 <= j < k ==> r[j] == if j < |values| then values[j] else JNull
  {
  }

  /** Setting an existing element replaces just that element only at the end. */
  lemma PutReplacesIffLast(values: seq<JSValue>, k: nat, x: JSValue)
    requires k < |values|
    ensures ArrayPut(values, k, x) == values[k := x] <==> k + 1 == |values|
  {
    assert |ArrayPut(values, k, x)| == k + 1;
  }

  /** Setting the first of two elements leaves one. */
  lemma PutCuts()
    ensures ArrayPut([JNull, JNull], 0, JBool(true)) == [JBool(true)]
  {
  }

  /** ObjectSet: the first pair with the key gets the value, else one is added. */
  function SetPair(pairs: seq<JSPair>, key: string, x: JSValue): seq<JSPair>
  {
    match FirstMatch(pairs, key)
    case Some(k) => pairs[k := pairs[k].(value := x)]
    case None => pairs + [JSPair(key, x)]
  }

  function RemovePair(pairs: seq<JSPair>, key: string): seq<JSPair>
    requires FirstMatch(pairs, key).Some?
  {
    var k := FirstMatch(pairs, key).value;
    pairs[..k] + pairs[k + 1..]
  }

  lemma {:induction false} MatchIsFirst(pairs: seq<JSPair>, key: string, k: nat)
    requires k < |pairs| && CStr(pairs[k].key) == key
    requires forall j :: 0 <= j < k ==> CStr(pairs[j].key) != key
    ensures FirstMatch(pairs, key) == Some(k)
  {
  }

  /** Both have the key, and its first pair in both is the same. */
  predicate SamePair(a: seq<JSPair>, b: seq<JSPair>, key: string)
  {
    && FirstMatch(a, key).Some? && FirstMatch(b, key).Some?
    && a[FirstMatch(a, key).value] == b[FirstMatch(b, key).value]
  }

  /** Removing a key: every other key is found as before, with the same value; the key
      itself is found again exactly if a later pair repeats it; and nothing else is
      lost. */
  lemma RemoveKeepsOthers(pairs: seq<JSPair>, key: string, other: string)
    requires FirstMatch(pairs, key).Some?
    ensures var r, k := RemovePair(pairs, key), FirstMatch(pairs, key).value;
            && multiset(r) + multiset{pairs[k]} == multiset(pairs)
            && (FirstMatch(r, key).Some? <==> exists j :: k < j < |pairs| && CStr(pairs[j].key) == key)
            && (other != key ==>
                  && (FirstMatch(r, other).Some? <==> FirstMatch(pairs, other).Some?)
                  && (FirstMatch(r, other).Some? ==> SamePair(r, pairs, other)))
  {
    hide CStr, FirstMatch;
    var k := FirstMatch(pairs, key).value;
    OneRemoved(pairs, k);
    RemovedMatch(pairs, key, k, key);
    if other != key { RemovedMatch(pairs, key, k, other); }
  }

  lemma OneRemoved(pairs: seq<JSPair>, k: nat)
    requires k < |pairs|
    ensures multiset(pairs[..k] + pairs[k + 1..]) + multiset{pairs[k]} == multiset(pairs)
  {
    assert pairs == pairs[..k] + [pairs[k]] + pairs[k + 1..];
  }

  lemma RemovedAt(pairs: seq<JSPair>, k: nat)
    requires k < |pairs|
    ensures var r := pairs[..k] + pairs[k + 1..];
            && |r| == |pairs| - 1
            && (forall j :: 0 <= j < k ==> r[j] == pairs[j])
            && (forall j :: k <= j < |r| ==> r[j] == pairs[j + 1])
            && (forall j :: k < j < |pairs| ==> r[j - 1] == pairs[j])
  {
  }

  /** Where the first match of `q` is once pair `k` is gone. */
  lemma RemovedMatch(pairs: seq<JSPair>, key: string, k: nat, q: string)
    requires FirstMatch(pairs, key) == Some(k)
    ensures var r := pairs[..k] + pairs[k + 1..];
            && (q != key ==>
                  && (FirstMatch(r, q).Some? <==> FirstMatch(pairs, q).Some?)
                  && (FirstMatch(pairs, q).Some? ==> SamePair(r, pairs, q)))
            && (q == key ==> (FirstMatch(r, q).Some? <==> exists j :: k < j < |pairs| && CStr(pairs[j].key) == key))
  {
    hide CStr, FirstMatch;
    var r := pairs[..k] + pairs[k + 1..];
    RemovedAt(pairs, k);
    if q != key { OtherKept(pairs, r, k, q); }
  }

  lemma OtherKept(pairs: seq<JSPair>, r: seq<JSPair>, k: nat, q: string)
    requires k < |pairs| && CStr(pairs[k].key) != q && |r| == |pairs| - 1
    requires forall j :: 0 <= j < k ==> r[j] == pairs[j]
    requires forall j :: k <= j < |r| ==> r[j] == pairs[j + 1]
    requires forall j :: k < j < |pairs| ==> r[j - 1] == pairs[j]
    ensures FirstMatch(r, q).Some? <==> FirstMatch(pairs, q).Some?
    ensures FirstMatch(pairs, q).Some? ==> SamePair(r, pairs, q)
  {
    hide CStr, FirstMatch;
    var at := FirstMatch(pairs, q);
    if at.Some? {
      var to := if at.value < k then at.value else at.value - 1;
      assert pairs[at.value] == r[to];
      forall j | 0 <= j < to ensures CStr(r[j].key) != q {
        if j >= k { assert r[j] == pairs[j + 1]; }
      }
      MatchIsFirst(r, q, to);
    }
  }

  /** Setting a one-segment path in an object is ObjectSet. */
  lemma SetPairIsPathSet(pairs: seq<JSPair>, key: string, x: JSValue)
    requires '.' !in key
    ensures PathSet(JObject(pairs), key, x) == Some(JObject(SetPair(pairs, key, x)))
  {
    SegLenWhole(key);
    assert Seg(key) == key && !More(key);
  }

  // ---- an array node -----------------------------------------------------

  class JSArrayNode {
    var ppValues: array<JSValue>
    var nUsed: nat

    ghost predicate Valid()
      reads this
    {
      nUsed <= ppValues.Length
    }

    ghost function Contents(): seq<JSValue>
      requires Valid()
      reads this, ppValues
    {
      ppValues[..nUsed]
    }

    constructor ()
      ensures Valid() && Contents() == [] && fresh(ppValues)
    {
      ppValues, nUsed := new JSValue[0], 0;
    }

    /** realloc to at least `k + 1` slots and ten more than before. */
    method Grow(k: nat)
      requires Valid() && k + 1 > ppValues.Length
      modifies this`ppValues
      ensures Valid() && Contents() == old(Contents())
      ensures fresh(ppValues) && k < ppValues.Length && old(ppValues.Length) + 10 <= ppValues.Length
    {
      var nMax := if k + 1 > ppValues.Length + 10 then k + 1 else ppValues.Length + 10;
      var moved := new JSValue[nMax];
      forall i | 0 <= i < nUsed { moved[i] := ppValues[i]; }
      assert moved[..nUsed] == ppValues[..nUsed];
      ppValues := moved;
    }

    /** The gap up to `k` is filled with nulls, and `x` becomes the last element. */
    method PadAndPut(k: nat, x: JSValue)
      requires Valid() && k < ppValues.Length
      modifies this`nUsed, ppValues
      ensures Valid() && Contents() == ArrayPut(old(Contents()), k, x)
    {
      ghost var before := Contents();
      var i := nUsed;
      while i < k
        invariant |before| == nUsed <= i <= ppValues.Length && (i <= k || i == nUsed)
        invariant ppValues[..i] == before + Nulls(i - nUsed)
      {
        ppValues[i] := JNull;
        assert ppValues[..i + 1] == ppValues[..i] + [JNull];
        i := i + 1;
      }
      assert ppValues[..i][..k] == ppValues[..k];
      ghost var front := ppValues[..k];
      ppValues[k] := x;
      nUsed := k + 1;
      assert ppValues[..k + 1] == front + [x];
    }

    /** `granted` is the allocator's answer, if it is asked. */
    method ArraySet(k: nat, x: JSValue, granted: bool) returns (ok: bool)
      requires Valid()
      modifies this, ppValues
      ensures Valid() && (ppValues == old(ppValues) || fresh(ppValues))
      ensures ok <==> k < old(ppValues.Length) || granted
      ensures Contents() == if ok then ArrayPut(old(Contents()), k, x) else old(Contents())
    {
      hide ArrayPut;
      if k + 1 > ppValues.Length {
        if !granted { return false; }
        Grow(k);
      }
      PadAndPut(k, x);
      ok := true;
    }
  }

  lemma GapClosed(was: seq<JSPair>, now: seq<JSPair>, i: nat, n: nat)
    requires i < n <= |was| == |now|
    requires forall q :: 0 <= q < i ==> now[q] == was[q]
    requires forall q :: i <= q < n - 1 ==> now[q] == was[q + 1]
    ensures now[..n - 1] == was[..i] + was[i + 1..n]
  {
  }

  /** The pairs behind `i` move up by one. */
  method CloseGap(a: array<JSPair>, i: nat, n: nat)
    requires i < n <= a.Length
    modifies a
    ensures a[..n - 1] == old(a[..i]) + old(a[i + 1..n])
  {
    ghost var was := a[..];
    var j := i;
    while j + 1 < n
      invariant i <= j < n
      invariant forall q :: 0 <= q < i ==> a[q] == was[q]
      invariant forall q :: i <= q < j ==> a[q] == was[q + 1]
      invariant forall q :: j <= q < n ==> a[q] == was[q]
    {
      a[j] := a[j + 1];
      j := j + 1;
    }
    GapClosed(was, a[..], i, n);
  }

  // ---- an object node ----------------------------------------------------

  class JSObjectNode {
    var pPairs: array<JSPair>
    var nUsed: nat

    ghost predicate Valid()
      reads this
    {
      nUsed <= pPairs.Length
    }

    ghost function Contents(): seq<JSPair>
      requires Valid()
      reads this, pPairs
    {
      pPairs[..nUsed]
    }

    constructor ()
      ensures Valid() && Contents() == [] && fresh(pPairs)
    {
      pPairs, nUsed := new JSPair[0], 0;
    }

    /** The first pair whose key is the C string `key`, or nUsed. */
    method FindPair(key: string) returns (i: nat)
      requires Valid()
      ensures i <= nUsed
      ensures FirstMatch(Contents(), key) == if i < nUsed then Some(i) else None
    {
      i := 0;
      while i < nUsed && CStr(pPairs[i].key) != key
        invariant i <= nUsed
        invariant forall j :: 0 <= j < i ==> CStr(pPairs[j].key) != key
      {
        i := i + 1;
      }
    }

    /** Two requests to the allocator: for the slot, if all are used, and for the
        key's copy. */
    method Append(key: string, x: JSValue, slotGranted: bool, keyGranted: bool) returns (ok: bool)
      requires Valid()
      modifies this, pPairs
      ensures Valid() && (pPairs == old(pPairs) || fresh(pPairs))
      ensures ok <==> (old(nUsed < pPairs.Length) || slotGranted) && keyGranted
      ensures Contents() == if ok then old(Contents()) + [JSPair(key, x)] else old(Contents())
    {
      ghost var before := Contents();
      if nUsed >= pPairs.Length {
        if !slotGranted { return false; }
        var moved := new JSPair[pPairs.Length + 10];
        forall i | 0 <= i < nUsed { moved[i] := pPairs[i]; }
        assert moved[..nUsed] == before;
        pPairs := moved;
      }
      if !keyGranted { return false; }
      pPairs[nUsed] := JSPair(key, x);
      assert pPairs[..nUsed + 1] == before + [JSPair(key, x)];
      nUsed := nUsed + 1;
      ok := true;
    }

    /** ObjectSetInternal without duplicates and with a value. */
    method ObjectSet(key: string, x: JSValue, slotGranted: bool, keyGranted: bool) returns (ok: bool)
      requires Valid()
      modifies this, pPairs
      ensures Valid() && (pPairs == old(pPairs) || fresh(pPairs))
      ensures ok <==> FirstMatch(old(Contents()), key).Some?
                      || ((old(nUsed < pPairs.Length) || slotGranted) && keyGranted)
      ensures Contents() == if ok then SetPair(old(Contents()), key, x) else old(Contents())
    {
      hide FirstMatch;
      ghost var before := Contents();
      var i := FindPair(key);
      if i < nUsed {
        pPairs[i] := pPairs[i].(value := x);
        assert pPairs[..nUsed] == before[i := before[i].(value := x)];
        ok := true;
      } else {
        ok := Append(key, x, slotGranted, keyGranted);
      }
    }

    /** ObjectSetInternal with a null value: the first pair with the key goes, and
        the pairs behind it move up. */
    method ObjectRemove(key: string)
      requires Valid() && FirstMatch(Contents(), key).Some?
      modifies this`nUsed, pPairs
      ensures Valid() && Contents() == RemovePair(old(Contents()), key)
    {
      var i := FindPair(key);
      hide FirstMatch;
      CloseGap(pPairs, i, nUsed);
      nUsed := nUsed - 1;
    }
  }

  // ---- cloning -----------------------------------------------------------

  /** CloneValue: objects are rebuilt with ObjectSet, so equal keys merge. */
  function Clone(t: JSValue): JSValue
    decreases t, 1
  {
    match t
    case JObject(pairs) => JObject(ClonePairs(pairs, []))
    case JArray(values) => JArray(CloneItems(values))
    case _ => t
  }

  function ClonePairs(pairs: seq<JSPair>, done: seq<JSPair>): seq<JSPair>
    decreases pairs, 0
  {
    if pairs == [] then done
    else ClonePairs(pairs[1..], SetPair(done, CStr(pairs[0].key), Clone(pairs[0].value)))
  }

  function CloneItems(values: seq<JSValue>): seq<JSValue>
    decreases values, 0
  {
    if values == [] then [] else [Clone(values[0])] + CloneItems(values[1..])
  }

  /** The pairs with keys as C strings and values cloned, nothing merged. */
  function CopyPairs(pairs: seq<JSPair>): (r: seq<JSPair>)
    ensures |r| == |pairs|
    decreases pairs, 2
  {
    if pairs == [] then []
    else [JSPair(CStr(pairs[0].key), Clone(pairs[0].value))] + CopyPairs(pairs[1..])
  }

  /** No key, as a C string, is in `seen` or comes twice. */
  predicate NoRepeats(pairs: seq<JSPair>, seen: set<string>)
  {
    pairs == [] ||
    (var key := CStr(pairs[0].key); key !in seen && NoRepeats(pairs[1..], seen + {key}))
  }

  /** Every object in the tree has NUL-free keys that do not repeat. */
  predicate KeysUnique(t: JSValue)
    decreases t, 1
  {
    match t
    case JObject(pairs) => NoRepeats(pairs, {}) && PairsUnique(pairs)
    case JArray(values) => ItemsUnique(values)
    case _ => true
  }

  predicate PairsUnique(pairs: seq<JSPair>)
    decreases pairs, 0
  {
    pairs == [] || (NUL !in pairs[0].key && KeysUnique(pairs[0].value) && PairsUnique(pairs[1..]))
  }

  predicate ItemsUnique(values: seq<JSValue>)
    decreases values, 0
  {
    values == [] || (KeysUnique(values[0]) && ItemsUnique(values[1..]))
  }

  function Keys(pairs: seq<JSPair>): set<string>
  {
    if pairs == [] then {} else {CStr(pairs[0].key)} + Keys(pairs[1..])
  }

  lemma {:induction false} MatchIffKey(pairs: seq<JSPair>, key: string)
    ensures FirstMatch(pairs, key).Some? <==> key in Keys(pairs)
  {
    if pairs != [] { MatchIffKey(pairs[1..], key); }
  }

  lemma {:induction false} KeysAppend(pairs: seq<JSPair>, p: JSPair)
    ensures Keys(pairs + [p]) == Keys(pairs) + {CStr(p.key)}
  {
    if pairs == [] {
      assert pairs + [p] == [p] && [p][1..] == [];
    } else {
      assert (pairs + [p])[1..] == pairs[1..] + [p];
      KeysAppend(pairs[1..], p);
    }
  }

  lemma {:induction false} KeysReplace(pairs: seq<JSPair>, k: nat, x: JSValue)
    requires k < |pairs|
    ensures Keys(pairs[k := pairs[k].(value := x)]) == Keys(pairs)
  {
    var q := pairs[k := pairs[k].(value := x)];
    if k == 0 {
      assert q[1..] == pairs[1..];
    } else {
      assert q[1..] == pairs[1..][k - 1 := pairs[1..][k - 1].(value := x)];
      KeysReplace(pairs[1..], k - 1, x);
    }
  }

  /** SetPair by whether the key is there. */
  lemma SetPairKeys(pairs: seq<JSPair>, key: string, x: JSValue)
    requires CStr(key) == key
    ensures var q := SetPair(pairs, key, x);
            && Keys(q) == Keys(pairs) + {key}
            && (key in Keys(pairs) ==> |q| == |pairs|)
            && (key !in Keys(pairs) ==> q == pairs + [JSPair(key, x)])
  {
    MatchIffKey(pairs, key);
    match FirstMatch(pairs, key)
    case Some(k) => KeysReplace(pairs, k, x);
    case None => KeysAppend(pairs, JSPair(key, x));
  }

  lemma CloneUnfolds(pairs: seq<JSPair>, done: seq<JSPair>)
    requires pairs != []
    ensures var key, v := CStr(pairs[0].key), Clone(pairs[0].value);
            && ClonePairs(pairs, done) == ClonePairs(pairs[1..], SetPair(done, key, v))
            && CopyPairs(pairs) == [JSPair(key, v)] + CopyPairs(pairs[1..])
            && (NoRepeats(pairs, Keys(done)) <==> key !in Keys(done) && NoRepeats(pairs[1..], Keys(done) + {key}))
  {
    hide SetPair, Clone, CStr, Keys;
  }

  lemma AppendMoves(done: seq<JSPair>, p: JSPair, rest: seq<JSPair>)
    ensures (done + [p]) + rest == done + ([p] + rest)
  {
  }

  /** A clone loses a pair for every repeated key, and none otherwise. */
  lemma {:induction false} ClonedPairs(pairs: seq<JSPair>, done: seq<JSPair>)
    ensures var r := ClonePairs(pairs, done);
            if NoRepeats(pairs, Keys(done)) then r == done + CopyPairs(pairs)
            else |r| < |done| + |pairs|
    ensures |ClonePairs(pairs, done)| <= |done| + |pairs|
    decreases pairs
  {
    if pairs == [] {
      assert done + [] == done;
    } else {
      hide *;
      var key, v := CStr(pairs[0].key), Clone(pairs[0].value);
      CStrTwice(pairs[0].key);
      SetPairKeys(done, key, v);
      CloneUnfolds(pairs, done);
      ClonedPairs(pairs[1..], SetPair(done, key, v));
      AppendMoves(done, JSPair(key, v), CopyPairs(pairs[1..]));
    }
  }

  /** Cloning gives an equal tree exactly when no object in it repeats a key. */
  lemma {:induction false} CloneIsCopy(t: JSValue)
    ensures Clone(t) == t <==> KeysUnique(t)
    decreases t, 1
  {
    match t
    case JObject(pairs) =>
      ClonedPairs(pairs, []);
      CopiesPairs(pairs);
      assert [] + CopyPairs(pairs) == CopyPairs(pairs);
    case JArray(values) => CopiesItems(values);
    case _ =>
  }

  /** {"a": null, "a": true} clones to {"a": true}. */
  lemma RepeatedKeyMerges()
    ensures Clone(JObject([JSPair("a", JNull), JSPair("a", JBool(true))])) == JObject([JSPair("a", JBool(true))])
  {
    var p, q := JSPair("a", JNull), JSPair("a", JBool(true));
    assert CStr("a") == "a" by { NulFreeIffCStr("a"); }
    assert [p, q][1..] == [q] && [q][1..] == [];
    assert SetPair([], "a", JNull) == [p];
    assert SetPair([p], "a", JBool(true)) == [q];
    assert ClonePairs([q], [p]) == ClonePairs([], [q]);
  }

  lemma NulFreeIffCStr(key: string)
    ensures CStr(key) == key <==> NUL !in key
  {
    if NUL !in key { CStrOfNulFree(key); }
  }

  lemma {:induction false} CopiesPairs(pairs: seq<JSPair>)
    ensures CopyPairs(pairs) == pairs <==> PairsUnique(pairs)
    decreases pairs, 0
  {
    hide Clone, KeysUnique, CStr;
    if pairs != [] {
      CloneIsCopy(pairs[0].value);
      NulFreeIffCStr(pairs[0].key);
      CopiesPairs(pairs[1..]);
      assert pairs == [pairs[0]] + pairs[1..];
      assert CopyPairs(pairs)[1..] == CopyPairs(pairs[1..]);
    }
  }

  lemma {:induction false} CopiesItems(values: seq<JSValue>)
    ensures CloneItems(values) == values <==> ItemsUnique(values)
    decreases values, 0
  {
    hide Clone, KeysUnique;
    if values != [] {
      CloneIsCopy(values[0]);
      CopiesItems(values[1..]);
      assert values == [values[0]] + values[1..];
      assert CloneItems(values)[1..] == CloneItems(values[1..]);
    }
  }

  lemma {:induction false} RepeatsAppend(pairs: seq<JSPair>, p: JSPair, seen: set<string>)
    ensures NoRepeats(pairs + [p], seen) <==> NoRepeats(pairs, seen) && CStr(p.key) !in seen + Keys(pairs)
  {
    if pairs == [] {
      assert pairs + [p] == [p] && [p][1..] == [];
    } else {
      assert (pairs + [p])[1..] == pairs[1..] + [p];
      RepeatsAppend(pairs[1..], p, seen + {CStr(pairs[0].key)});
    }
  }

  lemma {:induction false} UniqueAppend(pairs: seq<JSPair>, p: JSPair)
    requires PairsUnique(pairs) && NUL !in p.key && KeysUnique(p.value)
    ensures PairsUnique(pairs + [p])
  {
    if pairs == [] {
      assert pairs + [p] == [p] && [p][1..] == [];
    } else {
      assert (pairs + [p])[1..] == pairs[1..] + [p];
      UniqueAppend(pairs[1..], p);
    }
  }

  lemma {:induction false} UniqueReplace(pairs: seq<JSPair>, k: nat, x: JSValue, seen: set<string>)
    requires k < |pairs| && PairsUnique(pairs) && KeysUnique(x)
    ensures var q := pairs[k := pairs[k].(value := x)];
            PairsUnique(q) && (NoRepeats(q, seen) <==> NoRepeats(pairs, seen))
  {
    var q := pairs[k := pairs[k].(value := x)];
    if k == 0 {
      assert q[1..] == pairs[1..];
    } else {
      assert q[1..] == pairs[1..][k - 1 := pairs[1..][k - 1].(value := x)];
      UniqueReplace(pairs[1..], k - 1, x, seen + {CStr(pairs[0].key)});
    }
  }

  lemma SetPairUnique(pairs: seq<JSPair>, key: string, x: JSValue)
    requires NoRepeats(pairs, {}) && PairsUnique(pairs) && NUL !in key && KeysUnique(x)
    ensures NoRepeats(SetPair(pairs, key, x), {}) && PairsUnique(SetPair(pairs, key, x))
  {
    hide KeysUnique;
    MatchIffKey(pairs, key);
    match FirstMatch(pairs, key)
    case Some(k) => UniqueReplace(pairs, k, x, {});
    case None =>
      NulFreeIffCStr(key);
      UniqueAppend(pairs, JSPair(key, x));
      RepeatsAppend(pairs, JSPair(key, x), {});
  }

  /** In a clone no object repeats a key ... */
  lemma {:induction false} CloneUnique(t: JSValue)
    ensures KeysUnique(Clone(t))
    decreases t, 1
  {
    match t
    case JObject(pairs) => ClonePairsUnique(pairs, []);
    case JArray(values) => CloneItemsUnique(values);
    case _ =>
  }

  lemma {:induction false} ClonePairsUnique(pairs: seq<JSPair>, done: seq<JSPair>)
    requires NoRepeats(done, {}) && PairsUnique(done)
    ensures NoRepeats(ClonePairs(pairs, done), {}) && PairsUnique(ClonePairs(pairs, done))
    decreases pairs, 0
  {
    hide SetPair, Clone, KeysUnique, NoRepeats, PairsUnique, CStr;
    if pairs != [] {
      var key, v := CStr(pairs[0].key), Clone(pairs[0].value);
      CloneUnique(pairs[0].value);
      SetPairUnique(done, key, v);
      ClonePairsUnique(pairs[1..], SetPair(done, key, v));
    }
  }

  lemma {:induction false} CloneItemsUnique(values: seq<JSValue>)
    ensures ItemsUnique(CloneItems(values))
    decreases values, 0
  {
    hide Clone, KeysUnique;
    if values != [] {
      CloneUnique(values[0]);
      CloneItemsUnique(values[1..]);
      assert CloneItems(values)[1..] == CloneItems(values[1..]);
    }
  }

  /** ... so a clone of a clone is equal to it. */
  lemma CloneTwice(t: JSValue)
    ensures Clone(Clone(t)) == Clone(t)
  {
    CloneUnique(t);
    CloneIsCopy(Clone(t));
  }

  method CloneValue(v: JSValue) returns (copy: JSValue)
    ensures copy == Clone(v)
    decreases v, 1
  {
    match v
    case JObject(pairs) =>
      var done := CloneObject(pairs);
      copy := JObject(done);
    case JArray(values) =>
      var done := CloneArray(values);
      copy := JArray(done);
    case _ => copy := v;
  }

  method CloneObject(pairs: seq<JSPair>) returns (done: seq<JSPair>)
    ensures done == ClonePairs(pairs, [])
    decreases pairs, 0
  {
    hide SetPair, Clone, CStr;
    done := [];
    var i := 0;
    assert pairs[0..] == pairs;
    while i < |pairs|
      invariant i <= |pairs| && ClonePairs(pairs[i..], done) == ClonePairs(pairs, [])
    {
      var v := CloneValue(pairs[i].value);
      assert pairs[i..][1..] == pairs[i + 1..];
      done := SetPair(done, CStr(pairs[i].key), v);
      i := i + 1;
    }
  }

  method CloneArray(values: seq<JSValue>) returns (done: seq<JSValue>)
    ensures done == CloneItems(values)
    decreases values, 0
  {
    hide Clone;
    done := [];
    var i := 0;
    assert values[0..] == values;
    while i < |values|
      invariant i <= |values| && done + CloneItems(values[i..]) == CloneItems(values)
    {
      var v := CloneValue(values[i]);
      assert values[i..][1..] == values[i + 1..];
      assert done + ([v] + CloneItems(values[i + 1..])) == done + [v] + CloneItems(values[i + 1..]);
      done := done + [v];
      i := i + 1;
    }
    assert done + [] == done;
  }
}
