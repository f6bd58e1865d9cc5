// Small definitions shared by the models.
module Common {

  datatype Option<+T> = None | Some(value: T)

  function Min(a: nat, b: nat): nat { if a < b then a else b }

  /** In a list that counts up from 0, each number stands once. */
  lemma Once(s: seq<nat>, i: nat)
    requires i < |s| && forall k :: 0 <= k < |s| ==> s[k] == k
    ensures multiset(s)[i] == 1
  {
    assert s == s[..i] + [s[i]] + s[i + 1..];
    assert i !in s[..i] && i !in s[i + 1..];
  }

  /** What two steps move through a queue, together. */
  lemma Regroup(p: seq<nat>, x: seq<nat>, y: seq<nat>, a: seq<nat>, r: seq<nat>, b: seq<nat>, z: seq<nat>)
    requires p + x == a + r && r + y == b + z
    ensures p + (x + y) == (a + b) + z
  {
    assert p + (x + y) == (p + x) + y == (a + r) + y == a + (r + y) == a + (b + z) == (a + b) + z;
  }
}
