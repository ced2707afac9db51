// The keys of an ordered map (Rust's BTreeMap<usize, _>) in the order it iterates them.
module SortedKeys {
  ghost predicate IsLeast(m: nat, s: set<nat>) {
    m in s && forall k :: k in s ==> m <= k
  }

  lemma {:induction false} MinExists(s: set<nat>)
    requires s != {}
    ensures exists m :: IsLeast(m, s)
  {
    var x :| x in s;
    if s == {x} {
      assert IsLeast(x, s);
    } else {
      MinExists(s - {x});
      var m :| IsLeast(m, s - {x});
      var least := if x < m then x else m;
      forall k | k in s ensures least <= k {
        assert k == x || k in s - {x};
      }
      assert IsLeast(least, s);
    }
  }

  function MinOf(s: set<nat>): (m: nat)
    requires s != {}
    ensures m in s && forall k :: k in s ==> m <= k
  {
    MinExists(s);
    assert exists m :: m in s && forall k :: k in s ==> m <= k by {
      var m :| IsLeast(m, s);
    }
    var m :| m in s && forall k :: k in s ==> m <= k;
    m
  }

  ghost predicate Ascending(keys: seq<nat>) {
    forall i, j :: 0 <= i < j < |keys| ==> keys[i] < keys[j]
  }

  function Sorted(s: set<nat>): (keys: seq<nat>)
    ensures Ascending(keys)
    ensures forall k :: k in keys <==> k in s
    decreases |s|
  {
    if s == {} then []
    else
      var m := MinOf(s);
      [m] + Sorted(s - {m})
  }

  // An ascending list of keys that starts at least at lo grows at least as fast as its index.
  lemma {:induction false} AscendingBound(keys: seq<nat>, lo: nat, j: nat)
    requires Ascending(keys) && j < |keys| && lo <= keys[0]
    ensures lo + j <= keys[j]
    decreases j
  {
    if j > 0 { AscendingBound(keys, lo, j - 1); }
  }

  // The ascending list of all numbers below n.
  lemma AllIndices(keys: seq<nat>, n: nat)
    requires Ascending(keys) && forall k: nat :: k in keys <==> k < n
    ensures |keys| == n && forall j :: 0 <= j < n ==> keys[j] == j
  {
    assert |keys| < n ==> |keys| in keys;
    assert n < |keys| ==> keys[n] in keys;
    forall j: nat | j < |keys| ensures keys[j] == j {
      AscendingBound(keys, 0, j);
      assert keys[j] in keys;
      AscendingGap(keys, j);
    }
  }

  // An ascending list holding every number up to its j-th entry has it at index j at the latest.
  lemma {:induction false} AscendingGap(keys: seq<nat>, j: nat)
    requires Ascending(keys) && j < |keys| && forall k: nat :: k < keys[j] ==> k in keys
    ensures keys[j] <= j
    decreases j
  {
    if j < keys[j] {
      var below: nat := keys[j] - 1;
      assert below in keys;
      var i :| 0 <= i < |keys| && keys[i] == below;
      if j > 0 {
        AscendingGap(keys, j - 1);
      }
    }
  }

  // How many of an ascending list of keys lie below c; they come first.
  ghost function CountBelow(keys: seq<nat>, c: nat): (n: nat)
    requires Ascending(keys)
    ensures n <= |keys|
    ensures forall j :: 0 <= j < n ==> keys[j] < c
    ensures forall j :: n <= j < |keys| ==> c <= keys[j]
  {
    if keys == [] || keys[|keys| - 1] < c then |keys| else CountBelow(keys[..|keys| - 1], c)
  }

  // An ascending list that holds everything from c to its upper bound n ends with c, c + 1, ..., n - 1.
  lemma ConsecutiveTail(keys: seq<nat>, c: nat, n: nat)
    requires Ascending(keys) && c <= n
    requires forall k :: k in keys ==> k < n
    requires forall k: nat :: c <= k < n ==> k in keys
    ensures |keys| == CountBelow(keys, c) + (n - c)
    ensures forall j :: CountBelow(keys, c) <= j < |keys| ==> keys[j] == c + (j - CountBelow(keys, c))
  {
    var j0 := CountBelow(keys, c);
    hide CountBelow;
    var tail: seq<nat> := seq(|keys| - j0, i requires 0 <= i < |keys| - j0 => keys[j0 + i] - c);
    forall k: nat | k < n - c ensures k in tail {
      var key: nat := c + k;
      assert key in keys;
      var j :| 0 <= j < |keys| && keys[j] == key;
      assert tail[j - j0] == k;
    }
    forall i | 0 <= i < |tail| ensures tail[i] < n - c {
      assert keys[j0 + i] in keys;
    }
    AllIndices(tail, n - c);
    forall j | j0 <= j < |keys| ensures keys[j] == c + (j - j0) {
      assert tail[j - j0] == j - j0;
    }
  }
}
