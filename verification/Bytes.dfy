/** Byte strings and the two operations a byte-addressed disk is specified by:
    taking a slice and splicing a byte string in. */
module Bytes {
  newtype byte = x: int | 0 <= x < 256

  /** `d` with the bytes from `off` on replaced by `p`. */
  function Splice(d: seq<byte>, off: nat, p: seq<byte>): (r: seq<byte>)
    requires off + |p| <= |d|
    ensures |r| == |d|
  {
    d[..off] + p + d[off + |p|..]
  }

  /** Two adjacent splices are one splice of the concatenation. */
  lemma SpliceAdjacent(d: seq<byte>, off: nat, p: seq<byte>, q: seq<byte>)
    requires off + |p| + |q| <= |d|
    ensures Splice(Splice(d, off, p), off + |p|, q) == Splice(d, off, p + q)
  {
  }

  /** Splices of disjoint byte ranges commute, whichever sectors they share. */
  lemma SpliceCommutes(d: seq<byte>, o1: nat, p: seq<byte>, o2: nat, q: seq<byte>)
    requires o1 + |p| <= |d| && o2 + |q| <= |d|
    requires o1 + |p| <= o2 || o2 + |q| <= o1
    ensures Splice(Splice(d, o1, p), o2, q) == Splice(Splice(d, o2, q), o1, p)
  {
  }

  /** Read, modify, write: splicing a patched copy of a window back is splicing the patch. */
  lemma PatchWindow(d: seq<byte>, at: nat, n: nat, x: nat, p: seq<byte>)
    requires at + n <= |d| && x + |p| <= n
    ensures Splice(d, at, Splice(d[at..at + n], x, p)) == Splice(d, at + x, p)
  {
  }

  /** Writing back a patched window is splicing the patch exactly when the window agreed with `d`
      on every byte outside the patch. */
  lemma PatchWindowExact(d: seq<byte>, at: nat, w: seq<byte>, x: nat, p: seq<byte>)
    requires at + |w| <= |d| && x + |p| <= |w|
    ensures Splice(d, at, Splice(w, x, p)) == Splice(d, at + x, p)
      <==> forall y :: 0 <= y < |w| && !(x <= y < x + |p|) ==> w[y] == d[at + y]
  {
    var l, r := Splice(d, at, Splice(w, x, p)), Splice(d, at + x, p);
    forall y | 0 <= y < |w| && !(x <= y < x + |p|)
      ensures l[at + y] == w[y] && r[at + y] == d[at + y]
    {
    }
    if forall y :: 0 <= y < |w| && !(x <= y < x + |p|) ==> w[y] == d[at + y] {
      forall i | 0 <= i < |d|
        ensures l[i] == r[i]
      {
        if at <= i < at + |w| && !(at + x <= i < at + x + |p|) {
          assert w[i - at] == d[at + (i - at)];
        }
      }
    }
  }

  /** Filling a buffer with one slice of `d` and then with the next fills it with both. */
  lemma FillExtends(b0: seq<byte>, b1: seq<byte>, b2: seq<byte>, d: seq<byte>, off: nat, m: nat, n: nat)
    requires m <= n <= |b0| && off + n <= |d|
    requires b1 == Splice(b0, 0, d[off..off + m])
    requires b2 == Splice(b1, m, d[off + m..off + n])
    ensures b2 == Splice(b0, 0, d[off..off + n])
  {
    SpliceAdjacent(b0, 0, d[off..off + m], d[off + m..off + n]);
    assert d[off..off + m] + d[off + m..off + n] == d[off..off + n];
  }

  /** Splicing in a prefix of `p` and then the bytes after it splices in the longer prefix. */
  lemma SpliceExtends(d: seq<byte>, off: nat, p: seq<byte>, m: nat, n: nat)
    requires m <= n <= |p| && off + n <= |d|
    ensures Splice(Splice(d, off, p[..m]), off + m, p[m..n]) == Splice(d, off, p[..n])
  {
    SpliceAdjacent(d, off, p[..m], p[m..n]);
    assert p[..m] + p[m..n] == p[..n];
  }

  lemma SliceOfSlice(d: seq<byte>, a: nat, b: nat, x: nat, y: nat)
    requires a <= b <= |d| && x <= y <= b - a
    ensures d[a..b][x..y] == d[a + x..a + y]
  {
    var w, s := d[a..b][x..y], d[a + x..a + y];
    forall i | 0 <= i < |w|
      ensures w[i] == s[i]
    {
      assert w[i] == d[a..b][x + i];
    }
  }

  lemma SpliceAll(d: seq<byte>, p: seq<byte>)
    requires |p| == |d|
    ensures Splice(d, 0, p) == p
  {
  }

  lemma SpliceNothing(d: seq<byte>, off: nat)
    requires off <= |d|
    ensures Splice(d, off, []) == d
  {
  }
}
