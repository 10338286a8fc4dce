/** A directory as a sequence of entries: free runs, end marks, and what inserting a block of
    entries keeps. */
module DirEntries {
  import opened Allocator
  import opened Arith
  import opened Bytes
  import opened Chains
  import opened ChainEdits
  import opened DirStretch
  import opened DirTable
  import opened FatEntries
  import opened FileLayout
  import opened FileModel
  import opened Geometry
  import opened Lfn
  import opened LfnScan
  import opened Media

  // ----- entries of a table

  /** Entry k of a table as a value. */
  function EntryOf(g: Geo, img: Image, chain: seq<nat>, k: nat): Entry
  {
    if |EntryAt(g, img, chain, k)| == 32 then EntryAt(g, img, chain, k) else Zeros(32)
  }

  /** All entries the engine can reach. */
  function Entries(g: Geo, img: Image, chain: seq<nat>): (es: seq<Entry>)
    ensures |es| == Limit(g, chain) && forall k :: 0 <= k < |es| ==> es[k] == EntryOf(g, img, chain, k)
  {
    seq(Limit(g, chain), k requires 0 <= k => EntryOf(g, img, chain, k))
  }

  /** Where a reachable entry lies. */
  lemma EntryThere(g: Geo, img: Image, chain: seq<nat>, k: nat)
    requires GoodTable(g, img, chain) && k < Limit(g, chain)
    ensures EntrySector(g, chain, k) < |img| && |img[EntrySector(g, chain, k)]| == g.ss
    ensures EntryOffset(g, k) + 32 <= g.ss
    ensures !g.InFat(EntrySector(g, chain, k)) && !g.Shadow(EntrySector(g, chain, k))
    ensures EntryOf(g, img, chain, k) == img[EntrySector(g, chain, k)][EntryOffset(g, k)..EntryOffset(g, k) + 32]
  {
    hide Times, Quotient, Remainder;
    TableFacts(g, img, chain);
    OffsetPlace(g, chain, k);
    EntryPlace(g.ss, k);
    TablePlace(g, img, chain, k / PerSector(g));
  }

  lemma TableInjective(g: Geo, img: Image, chain: seq<nat>, p: nat, q: nat)
    requires GoodTable(g, img, chain) && p < TableSectors(g, chain) && q < TableSectors(g, chain)
    requires TableSector(g, chain, p) == TableSector(g, chain, q)
    ensures p == q
  {
    TableFacts(g, img, chain);
    hide GoodTable, SectorOf;
    if chain != [] { SectorInjective(g, chain, p, q); }
  }

  /** Different entries lie at different places. */
  lemma EntryApart(g: Geo, img: Image, chain: seq<nat>, j: nat, k: nat)
    requires GoodTable(g, img, chain) && j < Limit(g, chain) && k < Limit(g, chain) && j != k
    ensures EntrySector(g, chain, j) != EntrySector(g, chain, k)
      || EntryOffset(g, j) + 32 <= EntryOffset(g, k) || EntryOffset(g, k) + 32 <= EntryOffset(g, j)
  {
    Arithmetic();
    hide Times, Quotient, Remainder;
    hide GoodTable, TableSectors, TableSector;
    TableFacts(g, img, chain);
    InLimit(g, chain, j);
    InLimit(g, chain, k);
    var n := PerSector(g);
    if EntrySector(g, chain, j) == EntrySector(g, chain, k) {
      TableInjective(g, img, chain, j / n, k / n);
      SameQuotient(j, k, n);
      Apart32(j % n, k % n);
    }
  }

  lemma InLimit(g: Geo, chain: seq<nat>, k: nat)
    requires k < Limit(g, chain) && PerSector(g) > 0
    ensures k / PerSector(g) < TableSectors(g, chain)
  {
    Arithmetic();
    hide Times, Quotient, Remainder;
    DivBelow(k, TableSectors(g, chain), PerSector(g));
  }

  lemma SameQuotient(j: nat, k: nat, n: nat)
    requires n > 0 && j / n == k / n && j != k
    ensures j % n != k % n
  {
    SplitIndex(j, n);
    SplitIndex(k, n);
  }

  lemma Apart32(a: nat, b: nat)
    requires a != b
    ensures a * SZDIRE + 32 <= b * SZDIRE || b * SZDIRE + 32 <= a * SZDIRE
  {
  }

  lemma SplitIndex(k: nat, n: nat)
    requires n > 0
    ensures k == k / n * n + k % n
  {
  }

  /** The image with entry k replaced. */
  function SetEntry(g: Geo, img: Image, chain: seq<nat>, k: nat, e: Entry): (r: Image)
    ensures |r| == |img|
  {
    var s, o := EntrySector(g, chain, k), EntryOffset(g, k);
    if s < |img| && o + 32 <= |img[s]| then
      var sec: Sector := img[s][..o] + e + img[s][o + 32..];
      img[s := sec]
    else img
  }

  /** Replacing one entry replaces that entry and nothing else. */
  lemma SetIsUpdate(g: Geo, img: Image, chain: seq<nat>, k: nat, e: Entry)
    requires GoodTable(g, img, chain) && k < Limit(g, chain)
    ensures GoodTable(g, SetEntry(g, img, chain, k, e), chain)
    ensures FatOf(g, SetEntry(g, img, chain, k, e)) == FatOf(g, img)
    ensures Entries(g, SetEntry(g, img, chain, k, e), chain) == Entries(g, img, chain)[k := e]
    ensures forall s :: 0 <= s < |img| && s != EntrySector(g, chain, k) ==> SetEntry(g, img, chain, k, e)[s] == img[s]
  {
    EntryThere(g, img, chain, k);
    SetKeepsTable(g, img, chain, k, e);
    hide GoodTable, FatOf, EntrySector, EntryOffset, SetEntry, EntryOf;
    var a, b := Entries(g, SetEntry(g, img, chain, k, e), chain), Entries(g, img, chain)[k := e];
    forall j | 0 <= j < Limit(g, chain) ensures a[j] == b[j] {
      SetOne(g, img, chain, k, e, j);
    }
    assert a == b;
    SetElsewhere(g, img, chain, k, e);
  }

  lemma SetElsewhere(g: Geo, img: Image, chain: seq<nat>, k: nat, e: Entry)
    ensures forall s :: 0 <= s < |img| && s != EntrySector(g, chain, k) ==> SetEntry(g, img, chain, k, e)[s] == img[s]
  {
  }

  lemma SetOne(g: Geo, img: Image, chain: seq<nat>, k: nat, e: Entry, j: nat)
    requires GoodTable(g, img, chain) && k < Limit(g, chain) && j < Limit(g, chain)
    ensures EntryOf(g, SetEntry(g, img, chain, k, e), chain, j) == if j == k then e else EntryOf(g, img, chain, j)
  {
    EntryThere(g, img, chain, k);
    EntryThere(g, img, chain, j);
    SetKeepsTable(g, img, chain, k, e);
    EntryThere(g, SetEntry(g, img, chain, k, e), chain, j);
    if j != k { EntryApart(g, img, chain, j, k); }
    hide GoodTable, Limit, EntrySector, EntryOffset, EntryOf;
    if j != k {
      if EntrySector(g, chain, j) == EntrySector(g, chain, k) {
        OtherBytes(img[EntrySector(g, chain, k)], EntryOffset(g, k), e, EntryOffset(g, j));
      }
    } else {
      OwnBytes(img[EntrySector(g, chain, k)], EntryOffset(g, k), e);
    }
  }

  lemma SetKeepsTable(g: Geo, img: Image, chain: seq<nat>, k: nat, e: Entry)
    requires GoodTable(g, img, chain) && k < Limit(g, chain)
    ensures GoodTable(g, SetEntry(g, img, chain, k, e), chain)
    ensures FatOf(g, SetEntry(g, img, chain, k, e)) == FatOf(g, img)
  {
    EntryThere(g, img, chain, k);
    TableFacts(g, img, chain);
    Bounds(g);
    hide WellFormed, FatOf, IsChain, TableSectors, TableSector, EntrySector, EntryOffset, Geo.Sound;
    FatFrame(g, img, SetEntry(g, img, chain, k, e));
  }

  lemma OtherBytes(sec: Sector, o: nat, e: Entry, p: nat)
    requires o + 32 <= |sec| && p + 32 <= |sec| && (p + 32 <= o || o + 32 <= p)
    ensures (sec[..o] + e + sec[o + 32..])[p..p + 32] == sec[p..p + 32]
  {
  }

  lemma OwnBytes(sec: Sector, o: nat, e: Entry)
    requires o + 32 <= |sec|
    ensures (sec[..o] + e + sec[o + 32..])[o..o + 32] == e
  {
  }

  // ----- stretching

  /** The old entries, and behind them end marks. */
  ghost predicate Extended(a: seq<Entry>, b: seq<Entry>)
  {
    a <= b && forall j :: |a| <= j < |b| ==> b[j] == Zeros(32)
  }

  lemma ExtendedTrans(a: seq<Entry>, b: seq<Entry>, c: seq<Entry>)
    requires Extended(a, b) && Extended(b, c)
    ensures Extended(a, c)
  {
  }

  /** A stretched table has its entries followed by zeros. */
  lemma StretchEntries(g: Geo, img: Image, chain: seq<nat>, img': Image, r: nat)
    requires GoodTable(g, img, chain) && GoodTable(g, img', chain + [r]) && Stretched(g, img, chain, img', r)
    ensures Extended(Entries(g, img, chain), Entries(g, img', chain + [r]))
  {
    assert chain != [];
    hide GoodTable, Stretched, EntryOf;
    var a, b := Entries(g, img, chain), Entries(g, img', chain + [r]);
    LimitGrows(g, img, chain, r);
    forall j | 0 <= j < |a| ensures b[j] == a[j] { OldEntry(g, img, chain, img', r, j); }
    LimitStop(g, img, chain);
    forall j | |a| <= j < |b| ensures b[j] == Zeros(32) { NewEntry(g, img, chain, img', r, j); }
    assert a == b[..|a|];
  }

  lemma LimitGrows(g: Geo, img: Image, chain: seq<nat>, r: nat)
    requires GoodTable(g, img, chain) && chain != []
    ensures Limit(g, chain) <= Limit(g, chain + [r])
  {
    Arithmetic();
    hide Times, Quotient, Remainder;
    hide GoodTable;
    TableFacts(g, img, chain);
    MulMono(|chain|, |chain| + 1, g.csize);
    MulMono(TableSectors(g, chain), TableSectors(g, chain + [r]), PerSector(g));
  }

  /** Below the cap the limit is the size of the table. */
  lemma LimitStop(g: Geo, img: Image, chain: seq<nat>)
    requires GoodTable(g, img, chain)
    ensures PerSector(g) > 0
    ensures forall j: nat :: Limit(g, chain) <= j < MAX_DIR / SZDIRE ==> j / PerSector(g) >= TableSectors(g, chain)
  {
    Arithmetic();
    hide Times, Quotient, Remainder;
    TableFacts(g, img, chain);
    var n, t := PerSector(g), TableSectors(g, chain);
    hide GoodTable, TableSectors;
    forall j: nat | Limit(g, chain) <= j < MAX_DIR / SZDIRE ensures j / n >= t {
      DivAtLeast(j, t, n);
    }
  }

  lemma OldEntry(g: Geo, img: Image, chain: seq<nat>, img': Image, r: nat, j: nat)
    requires GoodTable(g, img, chain) && GoodTable(g, img', chain + [r]) && Stretched(g, img, chain, img', r) && j < Limit(g, chain)
    ensures j < Limit(g, chain + [r]) && EntryOf(g, img', chain + [r], j) == EntryOf(g, img, chain, j)
  {
    assert chain != [];
    LimitGrows(g, img, chain, r);
    EntryThere(g, img, chain, j);
    EntryThere(g, img', chain + [r], j);
    OldPlace(g, img, chain, img', r, j);
    hide GoodTable, Stretched, Limit, EntryOf, EntrySector, EntryOffset;
  }

  lemma OldPlace(g: Geo, img: Image, chain: seq<nat>, img': Image, r: nat, j: nat)
    requires GoodTable(g, img, chain) && GoodTable(g, img', chain + [r]) && Stretched(g, img, chain, img', r) && j < Limit(g, chain)
    ensures EntrySector(g, chain + [r], j) == EntrySector(g, chain, j) < |img|
    ensures img'[EntrySector(g, chain, j)] == img[EntrySector(g, chain, j)]
  {
    EntryThere(g, img, chain, j);
    EntryCluster(g, img, chain, j);
    OldSector(g, img, chain, r, j);
    assert Distinct(chain + [r]) by { TableFacts(g, img', chain + [r]); }
    hide GoodTable, EntryOf, EntryOffset, EntrySector, ClusterOf, FatOf, EndMark;
    NotNew(chain, r, ClusterOf(g, chain, j));
    ClustersDisjoint(g, ClusterOf(g, chain, j), r, EntrySector(g, chain, j));
  }

  /** An entry of a chained table lies in a cluster of the chain. */
  lemma EntryCluster(g: Geo, img: Image, chain: seq<nat>, j: nat)
    requires GoodTable(g, img, chain) && chain != [] && j < Limit(g, chain)
    ensures ClusterOf(g, chain, j) in chain && g.ValidCluster(ClusterOf(g, chain, j))
    ensures g.InCluster(EntrySector(g, chain, j), ClusterOf(g, chain, j))
  {
    Arithmetic();
    hide Times, Quotient, Remainder;
    hide GoodTable, Limit, PerSector, SectorOf, Geo.Sound, InChain;
    TableFacts(g, img, chain);
    InLimit(g, chain, j);
    SectorPlace(g, chain, j / PerSector(g));
  }

  lemma OldSector(g: Geo, img: Image, chain: seq<nat>, r: nat, j: nat)
    requires GoodTable(g, img, chain) && chain != [] && j < Limit(g, chain)
    ensures EntrySector(g, chain + [r], j) == EntrySector(g, chain, j)
  {
    Arithmetic();
    hide Times, Quotient, Remainder;
    hide GoodTable, Limit, SectorOf, View, PerSector, Geo.Sound;
    TableFacts(g, img, chain);
    InLimit(g, chain, j);
    ViewExtend(g, img, chain, r);
  }

  lemma NotNew(chain: seq<nat>, r: nat, c: nat)
    requires Distinct(chain + [r]) && c in chain
    ensures c != r
  {
    var i :| 0 <= i < |chain| && chain[i] == c;
    assert (chain + [r])[|chain|] == r && (chain + [r])[i] == c;
  }

  lemma NewEntry(g: Geo, img: Image, chain: seq<nat>, img': Image, r: nat, j: nat)
    requires GoodTable(g, img', chain + [r]) && Stretched(g, img, chain, img', r) && j < Limit(g, chain + [r])
    requires PerSector(g) > 0 && j / PerSector(g) >= TableSectors(g, chain)
    ensures EntryOf(g, img', chain + [r], j) == Zeros(32)
  {
    EntryThere(g, img', chain + [r], j);
    NewPlace(g, img', chain, r, j);
    var o := EntryOffset(g, j);
    assert img'[EntrySector(g, chain + [r], j)] == Zeros(g.ss);
    hide GoodTable, Stretched, Limit, EntryOf, EntrySector, EntryOffset;
    assert Zeros(g.ss)[o..o + 32] == Zeros(32);
  }

  lemma NewPlace(g: Geo, img': Image, chain: seq<nat>, r: nat, j: nat)
    requires GoodTable(g, img', chain + [r]) && j < Limit(g, chain + [r]) && chain != [] && r >= 2
    requires PerSector(g) > 0 && j / PerSector(g) >= TableSectors(g, chain)
    ensures g.InCluster(EntrySector(g, chain + [r], j), r)
  {
    Arithmetic();
    hide Times, Quotient, Remainder;
    var t := chain + [r];
    TableFacts(g, img', t);
    InLimit(g, t, j);
    var q := j / PerSector(g);
    hide GoodTable, Limit;
    SectorPlace(g, t, q);
    DivAtLeast(q, |chain|, g.csize);
    hide SectorOf, Geo.Sound, InnerIndex;
    assert ClusterIndex(g, q) == |chain|;
  }

  /** Stretching one directory leaves every other chain of the volume alone. */
  lemma StretchOthers(v: Vol, chain: seq<nat>, w: Vol, r: nat)
    requires v.g == w.g && GoodTable(v.g, v.img, chain) && Stretched(v.g, v.img, chain, w.img, r)
    ensures Others(v, chain, w, chain + [r])
  {
    TableFacts(v.g, v.img, chain);
    hide Shaped, FatOf, View, Geo.Sound, EndMark;
    var fat := FatOf(v.g, v.img);
    LinkReadsBack(v.g, 0);
    Stretch(fat, chain, r, EndMark(v.g));
    hide WellFormed;
    forall t | IsChain(fat, t) && Apart(chain, t)
      ensures IsChain(FatOf(w.g, w.img), t) && Apart(chain + [r], t) && View(w.g, w.img, t) == View(v.g, v.img, t)
    {
      FreeNotInChain(fat, t, r);
      ChainClusters(v, t);
      assert chain[|chain| - 1] in chain;
      OutsideCluster(v.g, v.img, w.img, t, r);
    }
  }

  lemma OutsideCluster(g: Geo, a: Image, b: Image, t: seq<nat>, r: nat)
    requires g.Sound() && Clusters(g, t) && r !in t && r >= 2 && |a| == |b|
    requires forall s :: 0 <= s < |a| && !g.InFat(s) && !g.InCluster(s, r) ==> b[s] == a[s]
    ensures View(g, b, t) == View(g, a, t)
  {
    Bounds(g);
    hide View;
    forall s: nat | s < |a| && InChain(g, t, s) ensures b[s] == a[s] {
      InDataArea(g, t, s);
      var i :| 0 <= i < |t| && t[i] >= 2 && g.InCluster(s, t[i]);
      ClustersDisjoint(g, t[i], r, s);
      DataApart(g, s);
    }
    hide InChain, Geo.Sound;
    ViewFrame(g, b, a, t);
  }

  /** Replacing an entry of one directory leaves every other chain of the volume alone. */
  lemma SetOthers(v: Vol, chain: seq<nat>, k: nat, e: Entry)
    requires GoodTable(v.g, v.img, chain) && k < Limit(v.g, chain)
    ensures Others(v, chain, v.(img := SetEntry(v.g, v.img, chain, k, e)), chain)
  {
    var w := v.(img := SetEntry(v.g, v.img, chain, k, e));
    TableFacts(v.g, v.img, chain);
    InLimit(v.g, chain, k);
    SetKeepsTable(v.g, v.img, chain, k, e);
    SetElsewhere(v.g, v.img, chain, k, e);
    hide GoodTable, FatOf, View, Geo.Sound, SetEntry, IsChain;
    forall t | IsChain(FatOf(v.g, v.img), t) && Apart(chain, t) ensures View(w.g, w.img, t) == View(v.g, v.img, t) {
      ChainClusters(v, t);
      TableOutside(v.g, v.img, chain, k, t);
      hide InChain, EntrySector;
      ViewFrame(v.g, w.img, v.img, t);
    }
  }

  /** A directory's sectors belong to no chain apart from it. */
  lemma TableOutside(g: Geo, img: Image, chain: seq<nat>, k: nat, t: seq<nat>)
    requires GoodTable(g, img, chain) && k < Limit(g, chain) && Clusters(g, t) && Apart(chain, t)
    ensures !InChain(g, t, EntrySector(g, chain, k))
  {
    Arithmetic();
    hide Times, Quotient, Remainder;
    TableFacts(g, img, chain);
    InLimit(g, chain, k);
    Bounds(g);
    if chain == [] {
      assert EntrySector(g, chain, k) < g.database;
      if InChain(g, t, EntrySector(g, chain, k)) { InDataArea(g, t, EntrySector(g, chain, k)); }
    } else {
      EntryCluster(g, img, chain, k);
      var c := ClusterOf(g, chain, k);
      if InChain(g, t, EntrySector(g, chain, k)) {
        var i :| 0 <= i < |t| && t[i] >= 2 && g.InCluster(EntrySector(g, chain, k), t[i]);
        ClustersDisjoint(g, c, t[i], EntrySector(g, chain, k));
      }
    }
  }

  // ----- inserting a block

  /** Deleted or never used. */
  predicate Free(e: Entry)
  {
    e[0] == DDEM || e[0] == 0
  }

  ghost predicate FreeRun(es: seq<Entry>, from: nat, n: nat)
  {
    from + n <= |es| && forall i :: from <= i < from + n ==> Free(es[i])
  }

  /** No run of n free entries ends before entry k. */
  ghost predicate NoneBefore(es: seq<Entry>, k: nat, n: nat)
  {
    forall from: nat :: from + n <= k && k <= |es| ==> !FreeRun(es, from, n)
  }

  /** Every entry after the first end mark is an end mark. */
  ghost predicate EndsClean(es: seq<Entry>)
  {
    forall i, j :: 0 <= i < j < |es| && es[i][0] == 0 ==> es[j][0] == 0
  }

  /** A scan that stops at the first end mark gets as far as entry j. */
  ghost predicate Reachable(es: seq<Entry>, j: nat)
  {
    j < |es| && forall i :: 0 <= i <= j ==> es[i][0] != 0
  }

  function Insert(es: seq<Entry>, from: nat, block: seq<Entry>): seq<Entry>
    requires from + |block| <= |es|
  {
    es[..from] + block + es[from + |block|..]
  }

  /** dir_alloc has found the first fit for n entries, ending at entry k. */
  ghost predicate FirstFit(es: seq<Entry>, k: nat, n: nat)
  {
    k + 1 >= n && FreeRun(es, k + 1 - n, n) && NoneBefore(es, k, n)
  }

  /** One of the n entries from the given one on is in use: its first byte is neither 0 nor 0xE5. */
  predicate Occupied(es: seq<Entry>, from: nat, n: nat)
  {
    exists i :: from <= i < from + n && i < |es| && es[i][0] != 0 && es[i][0] != 0xE5
  }

  /** The first fit by the entries' first bytes: n free entries in a row that end at entry k,
      and no n free entries in a row that end earlier. */
  lemma FitBytes(es: seq<Entry>, k: nat, n: nat)
    ensures FirstFit(es, k, n) <==>
      && n <= k + 1 && k + 1 <= |es|
      && (forall i :: k + 1 - n <= i <= k ==> es[i][0] == 0 || es[i][0] == 0xE5)
      && forall from: nat :: from + n <= k ==> Occupied(es, from, n)
  {
    forall from: nat | from + n <= |es| ensures FreeRun(es, from, n) <==> !Occupied(es, from, n) {}
    if n <= k + 1 <= |es| { assert FreeRun(es, k + 1 - n, n) <==> !Occupied(es, k + 1 - n, n); }
    hide FreeRun, Occupied;
  }

  lemma ExtendedClean(a: seq<Entry>, b: seq<Entry>)
    requires Extended(a, b) && EndsClean(a)
    ensures EndsClean(b)
  {
    forall i, j | 0 <= i < j < |b| && b[i][0] == 0 ensures b[j][0] == 0 {
      if j < |a| { assert b[i] == a[i] && b[j] == a[j]; }
    }
  }

  /** Inserting a block at the first fit keeps the directory in order: the entries in use stay
      where they are and stay reachable, the block is reachable, and behind the first end mark
      there are still only end marks. */
  lemma InsertKeeps(a: seq<Entry>, b: seq<Entry>, k: nat, block: seq<Entry>)
    requires Extended(a, b) && FirstFit(b, k, |block|) && block != []
    requires forall i :: 0 <= i < |block| ==> block[i][0] != 0
    ensures var c := Insert(b, k + 1 - |block|, block);
      && |c| == |b|
      && (forall j :: 0 <= j < |a| && !Free(a[j]) ==> c[j] == a[j])
      && (forall j: nat :: Reachable(a, j) && !Free(a[j]) ==> Reachable(c, j))
      && (EndsClean(a) ==> EndsClean(c) && forall j: nat :: j <= k ==> Reachable(c, j))
  {
    var from := k + 1 - |block|;
    var c := Insert(b, from, block);
    forall j | 0 <= j < |a| && !Free(a[j]) ensures c[j] == a[j] { assert b[j] == a[j]; }
    forall j: nat | Reachable(a, j) && !Free(a[j]) ensures Reachable(c, j) {
      forall i | 0 <= i <= j ensures c[i][0] != 0 { assert b[i] == a[i]; }
    }
    if EndsClean(a) {
      ExtendedClean(a, b);
      NoMarkBefore(b, k, |block|);
      forall j: nat | j <= k ensures Reachable(c, j) {
        forall i | 0 <= i <= j ensures c[i][0] != 0 { if i >= from { assert c[i] == block[i - from]; } }
      }
      forall i, j | 0 <= i < j < |c| && c[i][0] == 0 ensures c[j][0] == 0 {
        assert i > k;
        assert c[i] == b[i] && c[j] == b[j];
      }
    }
  }

  /** In a clean directory no end mark lies in front of the first fit. */
  lemma NoMarkBefore(b: seq<Entry>, k: nat, n: nat)
    requires EndsClean(b) && FirstFit(b, k, n) && n > 0
    ensures forall i :: 0 <= i < k + 1 - n ==> b[i][0] != 0
  {
    forall i | 0 <= i < k + 1 - n ensures b[i][0] != 0 {
      if b[i][0] == 0 {
        assert FreeRun(b, i, n);
        assert false;
      }
    }
  }
}
