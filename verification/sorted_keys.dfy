/**
 * Sorted listings of integer key sets, and the two binary-search
 * primitives (`bisect_right`, `bisect_left`) the keyframe code uses on them.
 */
module SortedKeys {

  /** Strictly increasing: the shape of `sorted(d.keys())` for a dict `d`. */
  predicate Increasing(s: seq<int>)
  {
    forall i, j :: 0 <= i < j < |s| ==> s[i] < s[j]
  }

  predicate IsLeast(m: int, keys: set<int>)
  {
    m in keys && forall k :: k in keys ==> m <= k
  }

  /** A non-empty set has an element. */
  lemma HasElement(keys: set<int>)
    requires keys != {}
    ensures exists k :: k in keys
  {
    if forall k :: k !in keys {
      assert false;
    }
  }

  lemma {:induction false} LeastExists(keys: set<int>)
    requires keys != {}
    ensures exists m :: IsLeast(m, keys)
    decreases |keys|
  {
    HasElement(keys);
    var x :| x in keys;
    if keys == {x} {
      assert IsLeast(x, keys);
    } else {
      var rest := keys - {x};
      LeastExists(rest);
      var m :| IsLeast(m, rest);
      var least := if x < m then x else m;
      forall k | k in keys ensures least <= k {
        if k != x { assert k in rest; }
      }
      assert IsLeast(least, keys);
    }
  }

  /** The smallest element of a non-empty key set. */
  function Least(keys: set<int>): (m: int)
    requires keys != {}
    ensures IsLeast(m, keys)
  {
    LeastExists(keys);
    var m :| IsLeast(m, keys); m
  }

  /** The keys of a set in increasing order (Python's `sorted` on dict keys). */
  function Sorted(keys: set<int>): (s: seq<int>)
    ensures Increasing(s)
    ensures forall k :: k in s <==> k in keys
    ensures |s| == |keys|
    decreases |keys|
  {
    if keys == {} then []
    else
      var m := Least(keys);
      var rest := Sorted(keys - {m});
      assert forall k :: k in rest ==> m < k;
      [m] + rest
  }

  lemma FirstIn(s: seq<int>)
    requires s != []
    ensures s[0] in s
  {
  }

  /** An increasing sequence is the only increasing listing of its elements. */
  lemma {:induction false} IncreasingListingUnique(s: seq<int>, t: seq<int>)
    requires Increasing(s) && Increasing(t)
    requires forall k :: k in s <==> k in t
    ensures s == t
  {
    if s != [] && t != [] {
      assert s[0] == t[0] by {
        assert s[0] in s && t[0] in t;
        assert s[0] in t && t[0] in s;
      }
      forall k ensures k in s[1..] <==> k in t[1..] {
        if k in s[1..] { assert k in t && k != t[0]; }
        if k in t[1..] { assert k in s && k != s[0]; }
      }
      IncreasingListingUnique(s[1..], t[1..]);
    } else if s != [] {
      FirstIn(s);
      assert false;
    } else if t != [] {
      FirstIn(t);
      assert false;
    }
  }

  lemma SortedOfIncreasing(s: seq<int>)
    requires Increasing(s)
    ensures Sorted(set k | k in s) == s
  {
    IncreasingListingUnique(Sorted(set k | k in s), s);
  }

  /** Index of `k` in an increasing sequence (Python's `list.index`). */
  function IndexOf(s: seq<int>, k: int): (i: nat)
    requires k in s
    ensures i < |s| && s[i] == k
  {
    if s[0] == k then 0 else 1 + IndexOf(s[1..], k)
  }

  /**
   * `bisect.bisect_right(s, x)`: the number of elements that are at most `x`
   * (for an increasing `s`, the insertion point after any copy of `x`).
   */
  function BisectRight(s: seq<int>, x: int): (p: nat)
    requires Increasing(s)
    ensures p <= |s|
    ensures forall i :: 0 <= i < p ==> s[i] <= x
    ensures forall i :: p <= i < |s| ==> x < s[i]
  {
    if s == [] || x < s[0] then 0 else 1 + BisectRight(s[1..], x)
  }

  /** The insertion point is the one index with no greater element before it and no smaller-or-equal one at it. */
  lemma BisectRightAt(s: seq<int>, x: int, p: nat)
    requires Increasing(s) && p <= |s|
    requires p > 0 ==> s[p - 1] <= x
    requires p < |s| ==> x < s[p]
    ensures BisectRight(s, x) == p
  {
  }

  /** Every element at or below `x` is at most the one just before the insertion point. */
  lemma BisectRightGreatest(s: seq<int>, x: int)
    requires Increasing(s)
    ensures forall k :: k in s && k <= x ==> BisectRight(s, x) > 0 && k <= s[BisectRight(s, x) - 1]
  {
    var at := BisectRight(s, x);
    forall k | k in s && k <= x ensures at > 0 && k <= s[at - 1] {
      var n :| 0 <= n < |s| && s[n] == k;
      if n < at - 1 { assert s[n] < s[at - 1]; }
    }
  }

  /** `bisect.bisect_left(s, x)`: the number of elements strictly below `x`. */
  function BisectLeft(s: seq<int>, x: int): (p: nat)
    requires Increasing(s)
    ensures p <= |s|
    ensures forall i :: 0 <= i < p ==> s[i] < x
    ensures forall i :: p <= i < |s| ==> x <= s[i]
  {
    if s == [] || x <= s[0] then 0 else 1 + BisectLeft(s[1..], x)
  }

  /** The elements of `s` that satisfy `p`, in their original order. */
  function Filter(s: seq<int>, p: int -> bool): (r: seq<int>)
    ensures forall k :: k in r <==> k in s && p(k)
    ensures |r| <= |s|
    ensures Increasing(s) ==> Increasing(r)
  {
    if s == [] then []
    else
      var rest := Filter(s[1..], p);
      ConsIncreasing(s, rest);
      if p(s[0]) then [s[0]] + rest else rest
  }

  /** Keeping the head of an increasing list in front of a selection from its tail keeps it increasing. */
  lemma ConsIncreasing(s: seq<int>, rest: seq<int>)
    requires s != [] && forall k :: k in rest ==> k in s[1..]
    ensures Increasing(s) ==> Increasing(s[1..])
    ensures Increasing(s) && Increasing(rest) ==> Increasing([s[0]] + rest)
  {
    if Increasing(s) && Increasing(rest) {
      var t := [s[0]] + rest;
      forall i, j | 0 <= i < j < |t| ensures t[i] < t[j] {
        if i == 0 {
          assert rest[j - 1] in s[1..] by { assert rest[j - 1] in rest; }
          var n :| 0 <= n < |s[1..]| && s[1..][n] == rest[j - 1];
          assert s[n + 1] == t[j];
        }
      }
    }
  }
}
