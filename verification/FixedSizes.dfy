// Finding a position among chunks of one fixed size.
module FixedSizes {
  import opened Bytes
  import opened ChunkSizes
  import opened ChunkReading

  // A position lies in chunk min(p / f, n - 1), that many whole chunks before it.
  lemma DivisionBounds(p: nat, f: nat)
    requires 0 < f
    ensures p / f * f <= p < p / f * f + f
  {
  }

  // In such a list the chunk of a position is found by division.
  lemma FixedLocate(n: nat, total: nat, f: nat, p: nat)
    requires 0 < n && 0 < f && (n - 1) * f < total && p < total
    ensures var index := Min(p / f, n - 1);
            index * f <= p && Inside(FixedLayout(n, total, f), p, index, p - index * f)
  {
    var q := p / f;
    DivisionBounds(p, f);
    LocateFrom(n, total, f, p, q);
  }

  lemma LocateFrom(n: nat, total: nat, f: nat, p: nat, q: nat)
    requires 0 < n && 0 < f && (n - 1) * f < total && p < total && q * f <= p < q * f + f
    ensures var index := Min(q, n - 1);
            index * f <= p && Inside(FixedLayout(n, total, f), p, index, p - index * f)
  {
    var index := Min(q, n - 1);
    MulMonotonic(index, q, f);
    FixedPrefix(n, total, f, index);
  }
}
