// Names in the order an ordered map (Rust's BTreeMap<String, _>) iterates them.
module NameOrder {
  import opened FsTypes

  predicate Less(a: Name, b: Name) {
    b != "" && (a == "" || a[0] < b[0] || (a[0] == b[0] && Less(a[1..], b[1..])))
  }

  lemma {:induction false} LessTotal(a: Name, b: Name)
    ensures Less(a, b) || a == b || Less(b, a)
    ensures !(Less(a, b) && Less(b, a)) && !Less(a, a)
    decreases |a| + |b|
  {
    LessIrreflexive(a);
    if a != "" && b != "" {
      LessTotal(a[1..], b[1..]);
      assert a == [a[0]] + a[1..] && b == [b[0]] + b[1..];
    }
  }

  lemma {:induction false} LessIrreflexive(a: Name)
    ensures !Less(a, a)
  {
    if a != "" { LessIrreflexive(a[1..]); }
  }

  lemma {:induction false} LessTransitive(a: Name, b: Name, c: Name)
    requires Less(a, b) && Less(b, c)
    ensures Less(a, c)
    decreases |a|
  {
    if a != "" && a[0] == b[0] && b[0] == c[0] { LessTransitive(a[1..], b[1..], c[1..]); }
  }

  // Where two names first differ decides: the lesser character, or the end of the name, comes first.
  lemma {:induction false} LessFirst(a: Name, b: Name, k: nat)
    requires k <= |a| && k <= |b| && a[..k] == b[..k]
    ensures k == |a| < |b| ==> Less(a, b)
    ensures k < |a| && k < |b| && a[k] != b[k] ==> (Less(a, b) <==> a[k] < b[k])
    decreases k
  {
    if k > 0 {
      assert a[..k][0] == b[..k][0] && a[1..][..k - 1] == a[..k][1..] && b[1..][..k - 1] == b[..k][1..];
      LessFirst(a[1..], b[1..], k - 1);
    }
  }

  predicate IsLeastName(m: Name, s: set<Name>) {
    m in s && forall n :: n in s && n != m ==> Less(m, n)
  }

  lemma {:induction false} LeastExists(s: set<Name>)
    requires s != {}
    ensures exists m :: IsLeastName(m, s)
    decreases |s|
  {
    var x :| x in s;
    if s == {x} {
      assert IsLeastName(x, s);
    } else {
      LeastExists(s - {x});
      var m :| IsLeastName(m, s - {x});
      LessTotal(x, m);
      if Less(m, x) {
        assert IsLeastName(m, s);
      } else {
        forall n | n in s && n != x ensures Less(x, n) {
          if n != m { LessTransitive(x, m, n); }
        }
        assert IsLeastName(x, s);
      }
    }
  }

  lemma LeastUnique(s: set<Name>, m: Name, n: Name)
    requires IsLeastName(m, s) && IsLeastName(n, s)
    ensures m == n
  {
    LessTotal(m, n);
  }

  function LeastName(s: set<Name>): (m: Name)
    requires s != {}
    ensures IsLeastName(m, s)
  {
    LeastExists(s);
    assert forall m, n :: IsLeastName(m, s) && IsLeastName(n, s) ==> m == n by {
      forall m, n | IsLeastName(m, s) && IsLeastName(n, s) ensures m == n { LeastUnique(s, m, n); }
    }
    var m :| m in s && IsLeastName(m, s);
    m
  }

  ghost predicate Ordered(names: seq<Name>) {
    forall i, j :: 0 <= i < j < |names| ==> Less(names[i], names[j])
  }

  // The names of a set in order, each once.
  function InOrder(s: set<Name>): (names: seq<Name>)
    ensures Ordered(names)
    ensures forall n :: n in names <==> n in s
    ensures |names| == |s|
    decreases |s|
  {
    if s == {} then []
    else
      var m := LeastName(s);
      var rest := InOrder(s - {m});
      assert forall j :: 0 <= j < |rest| ==> rest[j] in s - {m};
      [m] + rest
  }

  // An ordered list is determined by its members.
  lemma {:induction false} OrderedUnique(a: seq<Name>, b: seq<Name>)
    requires Ordered(a) && Ordered(b) && forall n :: n in a <==> n in b
    ensures a == b
    decreases |a|
  {
    if a == [] {
      if b != [] { HeadIn(b); }
    } else {
      assert a[0] in b;
      OrderedHead(a, b);
      forall n ensures n in a[1..] <==> n in b[1..] {
        TailMembers(a, n);
        TailMembers(b, n);
      }
      OrderedUnique(a[1..], b[1..]);
      assert a == [a[0]] + a[1..] && b == [b[0]] + b[1..];
    }
  }

  lemma HeadIn(a: seq<Name>)
    requires a != []
    ensures a[0] in a
  {
  }

  lemma OrderedHead(a: seq<Name>, b: seq<Name>)
    requires Ordered(a) && Ordered(b) && a != [] && b != [] && a[0] in b && b[0] in a
    ensures a[0] == b[0]
  {
    LessTotal(a[0], b[0]);
  }

  lemma TailMembers(a: seq<Name>, n: Name)
    requires Ordered(a) && a != []
    ensures n in a[1..] <==> n in a && n != a[0]
  {
    LessTotal(a[0], a[0]);
    assert a == [a[0]] + a[1..];
  }
}
