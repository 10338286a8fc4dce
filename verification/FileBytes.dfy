/** A file's bytes as the concatenation of its sectors. */
module FileBytes {
  import opened Arith
  import opened Bytes
  import opened FileLayout
  import opened Media

  /** s with d written over it from p on; p is at most the length of s. */
  function Overwrite(s: seq<byte>, p: nat, d: seq<byte>): (r: seq<byte>)
    requires p <= |s|
  {
    s[..p] + d + (if p + |d| < |s| then s[p + |d|..] else [])
  }

  lemma OverwriteIs(s: seq<byte>, p: nat, d: seq<byte>)
    requires p <= |s|
    ensures Overwrite(s, p, d) == s[..p] + d + (if p + |d| <= |s| then s[p + |d|..] else [])
  {
  }

  lemma FlatCut(secs: seq<Sector>, k: nat, ss: nat)
    requires Uniform(secs, ss) && k <= |secs|
    ensures Flat(secs) == Flat(secs[..k]) + Flat(secs[k..])
    ensures |Flat(secs[..k])| == k * ss && |Flat(secs)| == |secs| * ss
    ensures |Flat(secs[k..])| == (|secs| - k) * ss
  {
    assert secs == secs[..k] + secs[k..];
    FlatConcat(secs[..k], secs[k..]);
    FlatLength(secs[..k], ss);
    FlatLength(secs[k..], ss);
    FlatLength(secs, ss);
  }

  lemma FlatMiddle(secs: seq<Sector>, k: nat, n: nat, ss: nat)
    requires Uniform(secs, ss) && k + n <= |secs|
    ensures Flat(secs) == Flat(secs[..k]) + Flat(secs[k..k + n]) + Flat(secs[k + n..])
    ensures |Flat(secs[..k])| == k * ss && |Flat(secs[k..k + n])| == n * ss
    ensures |Flat(secs)| == |secs| * ss && k * ss + n * ss <= |secs| * ss
    ensures Flat(secs)[k * ss..k * ss + n * ss] == Flat(secs[k..k + n])
  {
    FlatCut(secs, k, ss);
    FlatCut(secs[k..], n, ss);
    assert secs[k..][..n] == secs[k..k + n];
    assert secs[k..][n..] == secs[k + n..];
    var a, b, c := Flat(secs[..k]), Flat(secs[k..k + n]), Flat(secs[k + n..]);
    assert Flat(secs) == a + (b + c) == a + b + c;
  }

  lemma OverwriteMiddle(a: seq<byte>, b: seq<byte>, c: seq<byte>, p: nat, r: nat, d: seq<byte>)
    requires p == |a| && r + |d| <= |b|
    ensures Overwrite(a + b + c, p + r, d) == a + Overwrite(b, r, d) + c
  {
  }

  /** Replacing a run of sectors overwrites the bytes they hold. */
  lemma FlatSplice(secs: seq<Sector>, k: nat, data: seq<Sector>, ss: nat)
    requires Uniform(secs, ss) && Uniform(data, ss) && k + |data| <= |secs|
    ensures |Flat(secs)| == |secs| * ss && k * ss + |data| * ss <= |secs| * ss && |Flat(data)| == |data| * ss
    ensures Flat(Splice(secs, k, data)) == Overwrite(Flat(secs), k * ss, Flat(data))
  {
    hide Overwrite, Flat, Uniform;
    var n := |data|;
    FlatMiddle(secs, k, n, ss);
    FlatLength(data, ss);
    var a, b, c := secs[..k], data, secs[k + n..];
    FlatConcat(a + b, c);
    FlatConcat(a, b);
    var p, x := k * ss, Flat(data);
    OverwriteMiddle(Flat(a), Flat(secs[k..k + n]), Flat(c), p, 0, x);
    OverwriteAll(Flat(secs[k..k + n]), x);
  }

  lemma OverwriteAll(b: seq<byte>, x: seq<byte>)
    requires |x| == |b|
    ensures Overwrite(b, 0, x) == x
  {
  }

  lemma FlatAt(secs: seq<Sector>, k: nat, ss: nat)
    requires Uniform(secs, ss) && k < |secs|
    ensures |Flat(secs)| == |secs| * ss && k * ss + ss <= |secs| * ss
    ensures |Flat(secs[..k])| == k * ss && |secs[k]| == ss
    ensures Flat(secs) == Flat(secs[..k]) + secs[k] + Flat(secs[k + 1..])
  {
    FlatMiddle(secs, k, 1, ss);
    assert secs[k..k + 1] == [secs[k]];
    FlatOne(secs[k]);
  }

  /** Replacing one sector replaces its bytes. */
  lemma FlatReplace(secs: seq<Sector>, k: nat, x: Sector, ss: nat)
    requires Uniform(secs, ss) && k < |secs| && |x| == ss
    ensures |Flat(secs)| == |secs| * ss && |Flat(secs[..k])| == k * ss
    ensures Flat(secs) == Flat(secs[..k]) + secs[k] + Flat(secs[k + 1..])
    ensures Flat(secs[k := x]) == Flat(secs[..k]) + x + Flat(secs[k + 1..])
  {
    var after := secs[k := x];
    assert Uniform(after, ss);
    hide Flat, Uniform;
    FlatAt(secs, k, ss);
    FlatAt(after, k, ss);
    assert after[..k] == secs[..k] && after[k + 1..] == secs[k + 1..];
  }

  lemma PartInside(k: nat, n: nat, ss: nat, end: nat)
    requires k < n && end <= ss
    ensures k * ss + end <= n * ss
  {
    MulMono(k + 1, n, ss);
    assert (k + 1) * ss == k * ss + ss;
  }

  /** Overwriting part of one sector overwrites those bytes of the file. */
  lemma FlatPatch(secs: seq<Sector>, k: nat, r: nat, d: seq<byte>, ss: nat)
    requires Uniform(secs, ss) && k < |secs| && r + |d| <= ss
    ensures |Flat(secs)| == |secs| * ss && k * ss + r + |d| <= |secs| * ss
    ensures Flat(secs[k := Overwrite(secs[k], r, d)]) == Overwrite(Flat(secs), k * ss + r, d)
  {
    assert |secs[k]| == ss;
    hide Flat, Uniform;
    PartInside(k, |secs|, ss, r + |d|);
    var x := Overwrite(secs[k], r, d);
    FlatReplace(secs, k, x, ss);
    hide Overwrite;
    OverwriteMiddle(Flat(secs[..k]), secs[k], Flat(secs[k + 1..]), k * ss, r, d);
  }

  /** One sector holds the bytes of the file at its place. */
  lemma FlatRead(secs: seq<Sector>, k: nat, r: nat, w: nat, ss: nat)
    requires Uniform(secs, ss) && k < |secs| && r + w <= ss
    ensures |Flat(secs)| == |secs| * ss && k * ss + r + w <= |secs| * ss
    ensures secs[k][r..r + w] == Flat(secs)[k * ss + r..k * ss + r + w]
  {
    FlatAt(secs, k, ss);
    hide Flat, Uniform;
    SliceMiddle(Flat(secs[..k]), secs[k], Flat(secs[k + 1..]), k * ss, r, w);
  }

  lemma SliceMiddle(a: seq<byte>, b: seq<byte>, c: seq<byte>, p: nat, r: nat, w: nat)
    requires p == |a| && r + w <= |b|
    ensures (a + b + c)[p + r..p + r + w] == b[r..r + w]
  {
  }

  /** Sectors past the size do not matter. */
  lemma FlatPrefix(a: seq<Sector>, b: seq<Sector>, n: nat, ss: nat, size: nat)
    requires Uniform(a, ss) && Uniform(b, ss) && n <= |a| && n <= |b| && a[..n] == b[..n] && size <= n * ss
    ensures |Flat(a)| >= n * ss && |Flat(b)| >= n * ss
    ensures Flat(a)[..size] == Flat(b)[..size]
  {
    FlatCut(a, n, ss);
    FlatCut(b, n, ss);
    MulMono(n, |a|, ss);
    MulMono(n, |b|, ss);
    assert Flat(a)[..size] == Flat(a[..n])[..size];
    assert Flat(b)[..size] == Flat(b[..n])[..size];
  }

  /** Cutting at the size commutes with overwriting inside it or at its edge. */
  lemma CutOverwrite(f: seq<byte>, size: nat, p: nat, d: seq<byte>)
    requires p <= size <= |f| && p + |d| <= |f|
    ensures Overwrite(f, p, d)[..if size < p + |d| then p + |d| else size] == Overwrite(f[..size], p, d)
  {
  }

  /** A run of sectors is a slice of the file's bytes. */
  lemma SliceOfRun(secs: seq<Sector>, k: nat, n: nat, ss: nat, size: nat, p: nat)
    requires Uniform(secs, ss) && k + n <= |secs| && p == k * ss && p + n * ss <= size <= |Flat(secs)|
    ensures Flat(secs[k..k + n]) == Flat(secs)[..size][p..p + n * ss]
  {
    FlatMiddle(secs, k, n, ss);
    hide Flat, Uniform;
    SliceCut(Flat(secs), size, p, n * ss);
  }

  /** Part of a sector is a slice of the file's bytes. */
  lemma SliceOfPart(secs: seq<Sector>, k: nat, r: nat, w: nat, ss: nat, size: nat, p: nat)
    requires Uniform(secs, ss) && k < |secs| && r + w <= ss && p == k * ss + r && p + w <= size <= |Flat(secs)|
    ensures |secs[k]| == ss && secs[k][r..r + w] == Flat(secs)[..size][p..p + w]
  {
    FlatRead(secs, k, r, w, ss);
    hide Flat;
    SliceCut(Flat(secs), size, p, w);
  }

  lemma SliceCut(s: seq<byte>, size: nat, p: nat, n: nat)
    requires p + n <= size <= |s|
    ensures s[..size][p..p + n] == s[p..p + n]
  {
  }

  function Larger(a: nat, b: nat): nat
  {
    if a < b then b else a
  }

  /** Patching one sector overwrites the file's bytes, growing it if needed. */
  lemma PatchFile(secs: seq<Sector>, k: nat, r: nat, d: seq<byte>, ss: nat, size: nat, p: nat)
    requires Uniform(secs, ss) && k < |secs| && r + |d| <= ss && p == k * ss + r && p <= size <= |Flat(secs)|
    ensures |secs[k]| == ss
    ensures var after := Flat(secs[k := Overwrite(secs[k], r, d)]);
      && Larger(size, p + |d|) <= |after|
      && after[..Larger(size, p + |d|)] == Overwrite(Flat(secs)[..size], p, d)
  {
    FlatPatch(secs, k, r, d, ss);
    hide Flat, Uniform;
    CutOverwrite(Flat(secs), size, p, d);
  }

  /** Replacing whole sectors overwrites the file's bytes, growing it if needed. */
  lemma SpliceFile(secs: seq<Sector>, k: nat, n: nat, d: seq<byte>, ss: nat, size: nat, p: nat)
    requires Uniform(secs, ss) && |d| == n * ss && k + n <= |secs| && p == k * ss && p <= size <= |Flat(secs)|
    ensures var after := Flat(Splice(secs, k, Chop(d, n, ss)));
      && Larger(size, p + |d|) <= |after|
      && after[..Larger(size, p + |d|)] == Overwrite(Flat(secs)[..size], p, d)
  {
    FlatSplice(secs, k, Chop(d, n, ss), ss);
    FlatChop(d, n, ss);
    hide Flat, Uniform;
    CutOverwrite(Flat(secs), size, p, d);
  }
}
