/** Where the bytes of a file lie: its clusters, their sectors, and the file as one
    sequence of sectors. */
module FileLayout {
  import opened Arith
  import opened Bytes
  import opened Chains
  import opened FatEntries
  import opened Geometry
  import opened Media

  /** The clusters of a file are distinct valid clusters. */
  ghost predicate Clusters(g: Geo, chain: seq<nat>)
  {
    Distinct(chain) && forall i :: 0 <= i < |chain| ==> g.ValidCluster(chain[i])
  }

  function ClusterBase(g: Geo, c: nat): nat
  {
    g.database + Times(if c >= 2 then c - 2 else 0, g.csize)
  }

  /** Which cluster of a chain holds the i-th sector of a file, and where inside it. */
  function ClusterIndex(g: Geo, i: nat): nat
  {
    if g.csize > 0 then Quotient(i, g.csize) else 0
  }

  function InnerIndex(g: Geo, i: nat): nat
  {
    if g.csize > 0 then Remainder(i, g.csize) else 0
  }

  /** The volume sector of the i-th sector of a file. */
  function SectorOf(g: Geo, chain: seq<nat>, i: nat): nat
  {
    if ClusterIndex(g, i) < |chain| then ClusterBase(g, chain[ClusterIndex(g, i)]) + InnerIndex(g, i) else 0
  }

  function SectorCount(g: Geo, chain: seq<nat>): nat
  {
    Times(|chain|, g.csize)
  }

  /** The sectors of a file in order. */
  ghost function View(g: Geo, img: Image, chain: seq<nat>): (v: seq<Sector>)
    ensures |v| == SectorCount(g, chain)
  {
    seq(SectorCount(g, chain), i requires 0 <= i => if SectorOf(g, chain, i) < |img| then img[SectorOf(g, chain, i)] else [])
  }

  /** Sector s belongs to the data of a cluster in the chain. */
  ghost predicate InChain(g: Geo, chain: seq<nat>, s: nat)
  {
    exists i :: 0 <= i < |chain| && chain[i] >= 2 && g.InCluster(s, chain[i])
  }

  lemma IndexSplit(g: Geo, i: nat)
    requires g.csize > 0
    ensures i == ClusterIndex(g, i) * g.csize + InnerIndex(g, i) && InnerIndex(g, i) < g.csize
  {
    Arithmetic();
    hide Times, Quotient, Remainder;
  }

  lemma IndexOf(g: Geo, q: nat, r: nat)
    requires r < g.csize
    ensures ClusterIndex(g, q * g.csize + r) == q && InnerIndex(g, q * g.csize + r) == r
  {
    Arithmetic();
    hide Times, Quotient, Remainder;
    DivUnique(q * g.csize + r, g.csize, q, r);
  }

  lemma SectorPlace(g: Geo, chain: seq<nat>, i: nat)
    requires g.Sound() && Clusters(g, chain) && i < SectorCount(g, chain)
    ensures ClusterIndex(g, i) < |chain| && InnerIndex(g, i) < g.csize
    ensures g.ValidCluster(chain[ClusterIndex(g, i)])
    ensures SectorOf(g, chain, i) == ClusterBase(g, chain[ClusterIndex(g, i)]) + InnerIndex(g, i)
    ensures g.InCluster(SectorOf(g, chain, i), chain[ClusterIndex(g, i)])
    ensures g.database <= SectorOf(g, chain, i) < g.End()
    ensures SectorOf(g, chain, i) != 0
    ensures InChain(g, chain, SectorOf(g, chain, i))
  {
    Arithmetic();
    hide Times, Quotient, Remainder;
    Bounds(g);
    DivBelow(i, |chain|, g.csize);
    var c := chain[ClusterIndex(g, i)];
    assert g.ValidCluster(c);
    ClusterOffset(c - 2, g.nFatent - 2, g.csize);
    IndexSplit(g, i);
    hide Geo.Sound, ClusterIndex, InnerIndex;
  }

  lemma SectorInjective(g: Geo, chain: seq<nat>, i: nat, j: nat)
    requires g.Sound() && Clusters(g, chain) && i < SectorCount(g, chain) && j < SectorCount(g, chain)
    requires SectorOf(g, chain, i) == SectorOf(g, chain, j)
    ensures i == j
  {
    hide Geo.Sound, ClusterIndex, InnerIndex;
    Bounds(g);
    SectorPlace(g, chain, i);
    SectorPlace(g, chain, j);
    IndexSplit(g, i);
    IndexSplit(g, j);
    if ClusterIndex(g, i) != ClusterIndex(g, j) {
      assert chain[ClusterIndex(g, i)] != chain[ClusterIndex(g, j)];
      ClustersDisjoint(g, chain[ClusterIndex(g, i)], chain[ClusterIndex(g, j)], SectorOf(g, chain, i));
    }
  }

  /** Consecutive file sectors inside one cluster are consecutive on the volume. */
  lemma SectorRun(g: Geo, chain: seq<nat>, k: nat, n: nat)
    requires g.Sound() && Clusters(g, chain) && k < SectorCount(g, chain) && InnerIndex(g, k) + n <= g.csize
    ensures k + n <= SectorCount(g, chain)
    ensures forall i :: k <= i < k + n ==> SectorOf(g, chain, i) == SectorOf(g, chain, k) + (i - k)
    ensures SectorOf(g, chain, k) + n <= g.End()
  {
    Arithmetic();
    hide Times, Quotient, Remainder;
    Bounds(g);
    SectorPlace(g, chain, k);
    hide Geo.Sound, ClusterIndex, InnerIndex;
    IndexSplit(g, k);
    var q, r := ClusterIndex(g, k), InnerIndex(g, k);
    MulMono(q + 1, |chain|, g.csize);
    assert (q + 1) * g.csize == q * g.csize + g.csize;
    forall i | k <= i < k + n ensures SectorOf(g, chain, i) == SectorOf(g, chain, k) + (i - k) {
      IndexOf(g, q, r + (i - k));
    }
    ClusterOffset(chain[q] - 2, g.nFatent - 2, g.csize);
  }

  function Splice(img: Image, at: nat, data: seq<Sector>): Image
    requires at + |data| <= |img|
  {
    img[..at] + data + img[at + |data|..]
  }

  /** A run of sectors written to the volume replaces that run of the file. */
  lemma ViewSplice(g: Geo, img: Image, chain: seq<nat>, k: nat, data: seq<Sector>)
    requires g.Sound() && Clusters(g, chain) && k < SectorCount(g, chain) && g.End() <= |img|
    requires InnerIndex(g, k) + |data| <= g.csize
    ensures k + |data| <= SectorCount(g, chain) && SectorOf(g, chain, k) + |data| <= |img|
    ensures View(g, Splice(img, SectorOf(g, chain, k), data), chain) == Splice(View(g, img, chain), k, data)
  {
    hide Times, Quotient, Remainder;
    hide Geo.Sound, SectorOf, InnerIndex;
    Bounds(g);
    SectorRun(g, chain, k, |data|);
    var s := SectorOf(g, chain, k);
    var r := Splice(img, s, data);
    forall i | 0 <= i < SectorCount(g, chain) ensures View(g, r, chain)[i] == Splice(View(g, img, chain), k, data)[i] {
      SectorPlace(g, chain, i);
      var t := SectorOf(g, chain, i);
      if k <= i < k + |data| {
        assert t == s + (i - k);
      } else if s <= t < s + |data| {
        assert SectorOf(g, chain, k + (t - s)) == t;
        SectorInjective(g, chain, i, k + (t - s));
      }
    }
  }

  /** Reading a run of sectors of the volume reads that run of the file. */
  lemma ViewRun(g: Geo, img: Image, chain: seq<nat>, k: nat, n: nat)
    requires g.Sound() && Clusters(g, chain) && k < SectorCount(g, chain) && g.End() <= |img|
    requires InnerIndex(g, k) + n <= g.csize
    ensures k + n <= SectorCount(g, chain) && SectorOf(g, chain, k) + n <= |img|
    ensures img[SectorOf(g, chain, k)..SectorOf(g, chain, k) + n] == View(g, img, chain)[k..k + n]
  {
    hide Geo.Sound, SectorOf, InnerIndex;
    SectorRun(g, chain, k, n);
    var s := SectorOf(g, chain, k);
    var a, b := img[s..s + n], View(g, img, chain)[k..k + n];
    forall d | 0 <= d < n ensures a[d] == b[d] {
      assert SectorOf(g, chain, k + d) == s + d < |img|;
      assert a[d] == img[s + d];
      assert b[d] == View(g, img, chain)[k + d];
    }
  }

  /** Appending a cluster leaves the sectors before it where they are. */
  lemma ViewExtend(g: Geo, img: Image, chain: seq<nat>, c: nat)
    requires g.csize > 0
    ensures SectorCount(g, chain + [c]) == SectorCount(g, chain) + g.csize
    ensures View(g, img, chain + [c])[..SectorCount(g, chain)] == View(g, img, chain)
    ensures forall i :: 0 <= i < SectorCount(g, chain) ==> SectorOf(g, chain + [c], i) == SectorOf(g, chain, i)
  {
    Arithmetic();
    hide Times, Quotient, Remainder;
    forall i | 0 <= i < SectorCount(g, chain) ensures SectorOf(g, chain + [c], i) == SectorOf(g, chain, i) {
      DivBelow(i, |chain|, g.csize);
    }
    assert (|chain| + 1) * g.csize == |chain| * g.csize + g.csize;
  }

  /** Only the sectors of the chain's clusters matter. */
  lemma ViewFrame(g: Geo, a: Image, b: Image, chain: seq<nat>)
    requires g.Sound() && Clusters(g, chain) && |a| == |b|
    requires forall s :: 0 <= s < |a| && InChain(g, chain, s) ==> a[s] == b[s]
    ensures View(g, a, chain) == View(g, b, chain)
  {
    hide Geo.Sound, InChain;
    forall i | 0 <= i < SectorCount(g, chain) ensures View(g, a, chain)[i] == View(g, b, chain)[i] {
      SectorPlace(g, chain, i);
    }
  }

  lemma ViewUniform(g: Geo, img: Image, chain: seq<nat>)
    requires Shaped(g, img) && Clusters(g, chain)
    ensures Uniform(View(g, img, chain), g.ss)
  {
    forall i | 0 <= i < SectorCount(g, chain) ensures |View(g, img, chain)[i]| == g.ss {
      SectorPlace(g, chain, i);
      DataApart(g, SectorOf(g, chain, i));
    }
  }
}
