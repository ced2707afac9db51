// Byte strings, sums of sizes, and the flat contents of a list of chunks.
module Bytes {
  newtype byte = x: int | 0 <= x < 256

  datatype Option<+T> = None | Some(value: T)
  datatype Result<+T, +E> = Ok(value: T) | Err(error: E)

  function Min(a: nat, b: nat): nat { if a <= b then a else b }

  function Max(a: nat, b: nat): nat { if a <= b then b else a }

  function Sum(sizes: seq<nat>): nat {
    if sizes == [] then 0 else Sum(sizes[..|sizes| - 1]) + sizes[|sizes| - 1]
  }

  function Sizes(chunks: seq<seq<byte>>): (sizes: seq<nat>) {
    seq(|chunks|, i requires 0 <= i < |chunks| => |chunks[i]|)
  }

  // The bytes of a list of chunks, one after the other.
  function Flatten(chunks: seq<seq<byte>>): seq<byte> {
    if chunks == [] then [] else Flatten(chunks[..|chunks| - 1]) + chunks[|chunks| - 1]
  }

  function Zeros(n: nat): (z: seq<byte>)
    ensures |z| == n && forall i :: 0 <= i < n ==> z[i] == 0
  {
    seq(n, _ => 0)
  }

  // Vec::resize(n, 0): cut, or pad with zero bytes.
  function Resize(data: seq<byte>, n: nat): (r: seq<byte>)
    ensures |r| == n
  {
    if n <= |data| then data[..n] else data + Zeros(n - |data|)
  }

  // ---- Sum ----

  lemma {:induction false} SumAppend(a: seq<nat>, b: seq<nat>)
    ensures Sum(a + b) == Sum(a) + Sum(b)
  {
    if b == [] {
      assert a + b == a;
    } else {
      assert (a + b)[..|a + b| - 1] == a + b[..|b| - 1];
      SumAppend(a, b[..|b| - 1]);
    }
  }

  lemma SumPush(a: seq<nat>, x: nat)
    ensures Sum(a + [x]) == Sum(a) + x
  {
    assert (a + [x])[..|a|] == a;
  }

  lemma SumTake(a: seq<nat>, k: nat)
    requires k < |a|
    ensures Sum(a[..k + 1]) == Sum(a[..k]) + a[k]
  {
    assert a[..k + 1] == a[..k] + [a[k]];
    SumPush(a[..k], a[k]);
  }

  lemma SumCut(a: seq<nat>, k: nat)
    requires k <= |a|
    ensures Sum(a) == Sum(a[..k]) + Sum(a[k..])
  {
    assert a == a[..k] + a[k..];
    SumAppend(a[..k], a[k..]);
  }

  lemma SumSplit(a: seq<nat>, k: nat)
    requires k < |a|
    ensures Sum(a[..k + 1]) == Sum(a[..k]) + a[k]
    ensures Sum(a) == Sum(a[..k]) + a[k] + Sum(a[k + 1..])
  {
    hide *;
    SumTake(a, k);
    SumCut(a, k + 1);
  }

  lemma SumPrefixLe(a: seq<nat>, j: nat, k: nat)
    requires j <= k <= |a|
    ensures Sum(a[..j]) <= Sum(a[..k])
  {
    SumCut(a[..k], j);
    assert a[..k][..j] == a[..j];
  }

  // ---- Flatten ----

  lemma {:induction false} FlattenAppend(a: seq<seq<byte>>, b: seq<seq<byte>>)
    ensures Flatten(a + b) == Flatten(a) + Flatten(b)
  {
    if b == [] {
      assert a + b == a;
    } else {
      var front, last := b[..|b| - 1], b[|b| - 1];
      FlattenAppend(a, front);
      assert b == front + [last] && a + b == (a + front) + [last];
      FlattenPush(a + front, last);
    }
  }

  lemma FlattenPush(a: seq<seq<byte>>, c: seq<byte>)
    ensures Flatten(a + [c]) == Flatten(a) + c
  {
    assert (a + [c])[..|a|] == a;
  }

  lemma FlattenTake(a: seq<seq<byte>>, k: nat)
    requires k < |a|
    ensures Flatten(a[..k + 1]) == Flatten(a[..k]) + a[k]
  {
    assert a[..k + 1] == a[..k] + [a[k]];
    FlattenPush(a[..k], a[k]);
  }

  lemma FlattenCut(a: seq<seq<byte>>, k: nat)
    requires k <= |a|
    ensures Flatten(a) == Flatten(a[..k]) + Flatten(a[k..])
  {
    assert a == a[..k] + a[k..];
    FlattenAppend(a[..k], a[k..]);
  }

  lemma FlattenSplit(a: seq<seq<byte>>, k: nat)
    requires k < |a|
    ensures Flatten(a[..k + 1]) == Flatten(a[..k]) + a[k]
    ensures Flatten(a) == Flatten(a[..k]) + a[k] + Flatten(a[k + 1..])
  {
    hide *;
    FlattenTake(a, k);
    FlattenCut(a, k + 1);
  }

  lemma {:induction false} FlattenLength(a: seq<seq<byte>>)
    ensures |Flatten(a)| == Sum(Sizes(a))
  {
    if a != [] {
      FlattenLength(a[..|a| - 1]);
      assert Sizes(a)[..|a| - 1] == Sizes(a[..|a| - 1]);
    }
  }

  // Chunk k of the flat bytes starts at the sum of the sizes before it.
  lemma FlattenSlice(a: seq<seq<byte>>, k: nat)
    requires k < |a|
    ensures var o := Sum(Sizes(a)[..k]);
            o + |a[k]| <= |Flatten(a)| && Flatten(a)[o..o + |a[k]|] == a[k]
            && Flatten(a)[..o] == Flatten(a[..k]) && Flatten(a)[o + |a[k]|..] == Flatten(a[k + 1..])
  {
    hide Flatten, Sum;
    FlattenSplit(a, k);
    FlattenLength(a[..k]);
    assert Sizes(a[..k]) == Sizes(a)[..k];
  }

  // data laid over s at position o.
  function Overwrite(s: seq<byte>, o: nat, data: seq<byte>): (r: seq<byte>)
    requires o + |data| <= |s|
  {
    s[..o] + data + s[o + |data|..]
  }

  lemma OverwriteMiddle(p: seq<byte>, c: seq<byte>, q: seq<byte>, at: nat, data: seq<byte>)
    requires at + |data| <= |c|
    ensures p + Overwrite(c, at, data) + q == Overwrite(p + c + q, |p| + at, data)
  {
    var s := p + c + q;
    assert s[..|p| + at] == p + c[..at];
    assert s[|p| + at + |data|..] == c[at + |data|..] + q;
  }

  // Overwriting bytes inside one chunk overwrites the same bytes of the flat contents.
  lemma FlattenOverwrite(a: seq<seq<byte>>, k: nat, at: nat, data: seq<byte>)
    requires k < |a| && at + |data| <= |a[k]|
    ensures var o := Sum(Sizes(a)[..k]) + at;
            o + |data| <= |Flatten(a)|
            && Flatten(a[k := Overwrite(a[k], at, data)]) == Overwrite(Flatten(a), o, data)
  {
    hide Overwrite, Sum, Flatten;
    var b := a[k := Overwrite(a[k], at, data)];
    FlattenSplit(a, k);
    FlattenSplit(b, k);
    FlattenLength(a[..k]);
    assert Sizes(a[..k]) == Sizes(a)[..k];
    assert b[..k] == a[..k] && b[k + 1..] == a[k + 1..];
    OverwriteMiddle(Flatten(a[..k]), a[k], Flatten(a[k + 1..]), at, data);
  }
}
