/** Counting finite sets of positions. */
module Sets {

  ghost function Range(lo: nat, hi: nat): (s: set<nat>)
    requires lo <= hi
    ensures forall k: nat :: k in s <==> lo <= k < hi
    ensures |s| == hi - lo
    decreases hi
  {
    if lo == hi then {} else Range(lo, hi - 1) + {hi - 1}
  }

  lemma Within<T>(a: set<T>, b: set<T>)
    requires a <= b
    ensures |a| <= |b|
  {
    assert b == a + (b - a);
  }

  lemma WithinTwo<T>(a: set<T>, b: set<T>, d: set<T>)
    requires a <= b + d
    ensures |a| <= |b| + |d|
  {
    Within(a, b + d);
    assert |b + d| == |b| + |d| - |b * d|;
  }

  lemma Least(s: set<nat>) returns (m: nat)
    requires s != {}
    ensures m in s && forall k :: k in s ==> m <= k
  {
    var x :| x in s;
    var below := set k | k in s && k < x;
    assert forall k :: k in s && k < x ==> k in below;
    if below == {} {
      m := x;
    } else {
      assert below < s by { assert x !in below; }
      m := Least(below);
    }
  }
}
