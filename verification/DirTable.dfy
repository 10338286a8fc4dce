/** Directory tables: where the entries lie, and `dir_sdi` and `dir_next`, which walk them. */
module DirTable {
  import opened Allocator
  import opened Arith
  import opened Bytes
  import opened Chains
  import opened ChainEdits
  import opened FatEntries
  import opened FatTable
  import opened FileLayout
  import opened FileModel
  import opened Geometry
  import opened Media
  import opened Window

  /** Entries in a sector. */
  function PerSector(g: Geo): (n: nat)
    ensures ValidSectorSize(g.ss) ==> 16 <= n <= 128 && n * SZDIRE == g.ss
  {
    Arithmetic();
    Quotient(g.ss, SZDIRE)
  }

  lemma EntryPlace(ss: nat, k: nat)
    requires ValidSectorSize(ss)
    ensures k * SZDIRE / ss == k / (ss / SZDIRE) && k * SZDIRE % ss == k % (ss / SZDIRE) * SZDIRE
    ensures k % (ss / SZDIRE) * SZDIRE + SZDIRE <= ss
  {
    var n := ss / SZDIRE;
    assert n * SZDIRE == ss;
    ScaledDivision(k, n, SZDIRE);
  }

  lemma ScaledDivision(k: nat, n: nat, m: nat)
    requires n > 0 && m > 0
    ensures n * m > 0 && k * m / (n * m) == k / n && k * m % (n * m) == k % n * m
    ensures k % n * m + m <= n * m
  {
    var q, r := k / n, k % n;
    assert k == q * n + r;
    assert k * m == q * n * m + r * m;
    assert q * n * m == q * (n * m);
    MulMono(r + 1, n, m);
    assert (r + 1) * m == r * m + m;
    DivUnique(k * m, n * m, q, r * m);
  }

  /** Sectors of a table. An empty chain stands for the static root directory of FAT12/16. */
  function TableSectors(g: Geo, chain: seq<nat>): nat
  {
    if chain == [] then (if PerSector(g) > 0 then Quotient(g.nRootdir, PerSector(g)) else 0) else SectorCount(g, chain)
  }

  function TableSector(g: Geo, chain: seq<nat>, q: nat): nat
  {
    if chain == [] then g.dirbase + q else SectorOf(g, chain, q)
  }

  /** Entries the engine can reach. */
  function Limit(g: Geo, chain: seq<nat>): nat
  {
    if Times(TableSectors(g, chain), PerSector(g)) < MAX_DIR / SZDIRE then Times(TableSectors(g, chain), PerSector(g)) else MAX_DIR / SZDIRE
  }

  function EntrySector(g: Geo, chain: seq<nat>, k: nat): nat
  {
    TableSector(g, chain, if PerSector(g) > 0 then Quotient(k, PerSector(g)) else 0)
  }

  function EntryOffset(g: Geo, k: nat): nat
  {
    if PerSector(g) > 0 then Remainder(k, PerSector(g)) * SZDIRE else 0
  }

  /** Entry k of a table. */
  function EntryAt(g: Geo, img: Image, chain: seq<nat>, k: nat): seq<byte>
  {
    var s, o := EntrySector(g, chain, k), EntryOffset(g, k);
    if s < |img| && o + SZDIRE <= |img[s]| then img[s][o..o + SZDIRE] else []
  }

  ghost predicate GoodTable(g: Geo, img: Image, chain: seq<nat>)
  {
    && Shaped(g, img) && WellFormed(FatOf(g, img))
    && (if chain == [] then g.fsType != Fat32 else IsChain(FatOf(g, img), chain))
  }

  lemma TableFacts(g: Geo, img: Image, chain: seq<nat>)
    requires GoodTable(g, img, chain)
    ensures g.Sound() && ValidSectorSize(g.ss) && 0 < g.csize <= 128 && IsPow2(g.csize) && 3 <= g.nFatent < 0x0FFF_FFF8
    ensures g.End() <= |img| && Clusters(g, chain) && PerSector(g) > 0
    ensures TableSectors(g, chain) > 0
  {
    Arithmetic();
    hide Times, Quotient, Remainder;
    hide WellFormed;
    Bounds(g);
    if chain != [] {
      ChainIsDistinct(FatOf(g, img), chain);
      MulAtLeast(|chain|, g.csize);
    } else {
      assert g.nRootdir % PerSector(g) == 0 && g.nRootdir > 0;
    }
  }

  /** A table sector lies outside the FAT and the shadow sectors. */
  lemma TablePlace(g: Geo, img: Image, chain: seq<nat>, q: nat)
    requires GoodTable(g, img, chain) && q < TableSectors(g, chain)
    ensures 0 < TableSector(g, chain, q) < |img|
    ensures !g.InFat(TableSector(g, chain, q)) && !g.Shadow(TableSector(g, chain, q))
    ensures |img[TableSector(g, chain, q)]| == g.ss
  {
    TableFacts(g, img, chain);
    Bounds(g);
    hide WellFormed, FatOf, IsChain;
    if chain != [] {
      SectorPlace(g, chain, q);
      DataApart(g, SectorOf(g, chain, q));
    } else {
      assert g.RootSectors() == TableSectors(g, chain);
    }
  }

  /** `DIR` */
  class Dir {
    const fs: FatFs
    const sclust: nat // table start cluster, 0 root

    var dptr: nat     // offset of the current entry
    var clust: nat    // its cluster, 0 in a static table
    var sect: nat     // its sector, 0 at the end of the table
    var dir: nat      // offset of the entry in the window

    ghost var chain: seq<nat>

    /** The directory can be worked on. */
    ghost predicate Open()
      reads this`chain, fs`wflag, fs`winsect, fs`log, fs`fats, fs`marks, fs`bypass, fs.win, fs.disk
    {
      && fs.Valid() && GoodTable(fs.geo, fs.Img(), chain)
      && (if sclust != 0 then chain != [] && chain[0] == sclust
          else if fs.geo.fsType == Fat32 then chain != [] && chain[0] == fs.geo.dirbase
          else chain == [])
    }

    /** The current entry is entry k. */
    ghost predicate At(k: nat)
      reads this`dptr, this`clust, this`sect, this`dir, this`chain
    {
      var g := fs.geo;
      && k < Limit(g, chain) && dptr == k * SZDIRE
      && sect == EntrySector(g, chain, k) && dir == EntryOffset(g, k)
      && clust == ClusterOf(g, chain, k)
    }

    constructor (volume: FatFs, start: nat, ghost clusters: seq<nat>)
      requires volume.Valid() && GoodTable(volume.geo, volume.Img(), clusters)
      requires if start != 0 then clusters != [] && clusters[0] == start
        else if volume.geo.fsType == Fat32 then clusters != [] && clusters[0] == volume.geo.dirbase
        else clusters == []
      ensures fs == volume && sclust == start && chain == clusters && Open() && sect == 0
    {
      fs, sclust, chain := volume, start, clusters;
      dptr, clust, sect, dir := 0, 0, 0, 0;
    }
  }

  /** The cluster of entry k, 0 in a static table. */
  function ClusterOf(g: Geo, chain: seq<nat>, k: nat): nat
  {
    var q := if PerSector(g) > 0 then Quotient(k, PerSector(g)) else 0;
    if ClusterIndex(g, q) < |chain| then chain[ClusterIndex(g, q)] else 0
  }

  /** What the FAT holds at cluster i of the table. */
  lemma TableLink(g: Geo, img: Image, chain: seq<nat>, i: nat)
    requires GoodTable(g, img, chain) && i < |chain|
    ensures g.ValidCluster(chain[i]) && FatOf(g, img)[chain[i]] >= 2
    ensures i + 1 < |chain| ==> FatOf(g, img)[chain[i]] == chain[i + 1] && g.ValidCluster(chain[i + 1])
    ensures i + 1 == |chain| ==> FatOf(g, img)[chain[i]] >= g.nFatent
  {
    hide Shaped, WellFormed, FatOf;
    ChainStep(FatOf(g, img), chain, i);
    TableFacts(g, img, chain);
  }

  /** The place of entry k as the offset arithmetic of the engine sees it. */
  lemma OffsetPlace(g: Geo, chain: seq<nat>, k: nat)
    requires ValidSectorSize(g.ss) && g.csize > 0
    ensures PerSector(g) > 0
    ensures EntrySector(g, chain, k) == TableSector(g, chain, k * SZDIRE / g.ss) && EntryOffset(g, k) == k * SZDIRE % g.ss
    ensures k < Times(TableSectors(g, chain), PerSector(g)) <==> k / PerSector(g) < TableSectors(g, chain)
  {
    Arithmetic();
    hide Times, Quotient, Remainder;
    EntryPlace(g.ss, k);
    var n, t := PerSector(g), TableSectors(g, chain);
    if k < t * n { DivBelow(k, t, n); }
    if k / n < t { MulMono(k / n + 1, t, n); assert (k / n + 1) * n == k / n * n + n; }
  }

  /** Walking to byte ofs = i * ClusterBytes + rem of a chained table. */
  lemma ChainPlace(g: Geo, chain: seq<nat>, k: nat, i: nat, rem: nat)
    requires ValidSectorSize(g.ss) && g.csize > 0 && chain != [] && rem < g.ClusterBytes()
    requires k * SZDIRE == i * g.ClusterBytes() + rem
    ensures ClusterIndex(g, k * SZDIRE / g.ss) == i && InnerIndex(g, k * SZDIRE / g.ss) == rem / g.ss
    ensures k * SZDIRE % g.ss == rem % g.ss
    ensures i < |chain| <==> k < Times(TableSectors(g, chain), PerSector(g))
  {
    Arithmetic();
    hide Times, Quotient, Remainder;
    ClusterPos(g, i, rem);
    DivBelow(rem, g.csize, g.ss);
    IndexOf(g, i, rem / g.ss);
    OffsetPlace(g, chain, k);
    EntryPlace(g.ss, k);
    var q := k * SZDIRE / g.ss;
    if q < |chain| * g.csize { DivBelow(q, |chain|, g.csize); }
    if i < |chain| {
      MulMono(i + 1, |chain|, g.csize);
      assert (i + 1) * g.csize == i * g.csize + g.csize;
    }
  }

  /** The loop of `dir_sdi` over the chain; i is the number of links followed. */
  method FollowTable(dp: Dir, top: nat, ofs: nat) returns (res: FResult, clst: nat, rem: nat, ghost i: nat)
    requires dp.Open() && dp.chain != [] && top == dp.chain[0]
    modifies dp.fs`wflag, dp.fs`winsect, dp.fs`marks, dp.fs.win, dp.fs.disk
    ensures dp.Open() && dp.fs.Img() == old(dp.fs.Img()) && dp.fs.Grows()
    ensures res == Ok || res == IntErr || (res == DiskErr && dp.fs.disk.mayFail)
    ensures res == Ok ==> i < |dp.chain| && clst == dp.chain[i] && rem < dp.fs.geo.ClusterBytes() && ofs == i * dp.fs.geo.ClusterBytes() + rem
    ensures res == IntErr ==> ofs >= |dp.chain| * dp.fs.geo.ClusterBytes()
  {
    hide FatFs.Ready, FatFs.Journaled, Traced, FatOf, GoodTable, FatFs.Img;
    var g := dp.fs.geo;
    ghost var img := dp.fs.Img();
    TableFacts(g, img, dp.chain);
    MulAtLeast(g.csize, g.ss);
    hide Geo.ClusterBytes;
    var csz := g.ClusterBytes();
    res, clst, rem, i := Ok, top, ofs, 0;
    while rem >= csz
      invariant dp.Open() && dp.fs.Img() == img && dp.fs.Grows() && res == Ok
      invariant i < |dp.chain| && clst == dp.chain[i] && ofs == i * csz + rem
      decreases rem
    {
      TableLink(g, img, dp.chain, i);
      LinkStep(i, |dp.chain|, csz, rem);
      clst := GetFat(dp.fs, clst);
      if clst == 0xFFFF_FFFF { return DiskErr, clst, rem, i; }
      if clst < 2 || clst >= g.nFatent { return IntErr, clst, rem, i; }
      rem := rem - csz;
      i := i + 1;
    }
  }

  lemma LinkStep(i: nat, n: nat, csz: nat, rem: nat)
    requires i < n && rem >= csz > 0
    ensures (i + 1) * csz == i * csz + csz
    ensures i + 1 == n ==> i * csz + rem >= n * csz
  {
  }

  /** The place of byte ofs of a chained table. */
  method ChainedPlace(dp: Dir, top: nat, ofs: nat) returns (res: FResult, clst: nat, sect: nat)
    requires dp.Open() && dp.chain != [] && top == dp.chain[0] && ofs < MAX_DIR && ofs % SZDIRE == 0
    modifies dp.fs`wflag, dp.fs`winsect, dp.fs`marks, dp.fs.win, dp.fs.disk
    ensures dp.Open() && dp.fs.Img() == old(dp.fs.Img()) && dp.fs.Grows()
    ensures res == Ok || res == IntErr || (res == DiskErr && dp.fs.disk.mayFail)
    ensures res == IntErr ==> ofs / SZDIRE >= Limit(dp.fs.geo, dp.chain)
    ensures res == Ok ==> Placed(dp.fs.geo, dp.chain, ofs / SZDIRE, clst, sect)
  {
    hide FatFs.Ready, FatFs.Journaled, Traced, FatOf, GoodTable, FatFs.Img, Clust2Sect, ClusterIndex, InnerIndex;
    var g := dp.fs.geo;
    TableFacts(g, dp.fs.Img(), dp.chain);
    sect := 0;
    var rem;
    ghost var i;
    res, clst, rem, i := FollowTable(dp, top, ofs);
    if res == IntErr { BeyondChain(g, dp.chain, ofs / SZDIRE); }
    if res != Ok { return; }
    TableLink(g, dp.fs.Img(), dp.chain, i);
    InChainPlace(g, dp.chain, ofs / SZDIRE, i, rem);
    sect := Clust2Sect(g, clst);
    if sect == 0 { res := IntErr; return; }
    sect := sect + rem / g.ss;
  }

  /** clst and sect are the cluster and the sector of entry k, which is reachable. */
  ghost predicate Placed(g: Geo, chain: seq<nat>, k: nat, clst: nat, sect: nat)
  {
    k < Limit(g, chain) && clst == ClusterOf(g, chain, k) && sect == EntrySector(g, chain, k)
  }

  lemma BeyondChain(g: Geo, chain: seq<nat>, k: nat)
    requires ValidSectorSize(g.ss) && chain != [] && k * SZDIRE >= |chain| * g.ClusterBytes()
    ensures k >= Limit(g, chain)
  {
    Arithmetic();
    hide Times, Quotient, Remainder;
    var n := PerSector(g);
    assert |chain| * (g.csize * (n * SZDIRE)) == |chain| * g.csize * n * SZDIRE;
  }

  lemma InChainPlace(g: Geo, chain: seq<nat>, k: nat, i: nat, rem: nat)
    requires g.Sound() && i < |chain| && g.ValidCluster(chain[i]) && k < MAX_DIR / SZDIRE
    requires rem < g.ClusterBytes() && k * SZDIRE == i * g.ClusterBytes() + rem
    ensures g.nFatent >= 2 && Clust2Sect(g, chain[i]) > 0 && g.ss > 0
    ensures Placed(g, chain, k, chain[i], Clust2Sect(g, chain[i]) + rem / g.ss)
  {
    Arithmetic();
    hide Times, Quotient, Remainder;
    Bounds(g);
    ClusterSectors(g, chain[i]);
    assert Clust2Sect(g, chain[i]) == ClusterBase(g, chain[i]);
    hide Geo.Sound, Clust2Sect, Geo.ClusterBytes, ClusterIndex, InnerIndex, ClusterBase;
    ChainPlace(g, chain, k, i, rem);
    EntryPlace(g.ss, k);
    assert EntrySector(g, chain, k) == SectorOf(g, chain, k * SZDIRE / g.ss);
  }

  /** The place of byte ofs of a static table. */
  method StaticEntry(g: Geo, ofs: nat) returns (res: FResult, sect: nat)
    requires g.Sound() && g.fsType != Fat32 && ofs < MAX_DIR && ofs % SZDIRE == 0
    ensures res == if ofs / SZDIRE < Limit(g, []) then Ok else IntErr
    ensures res == Ok ==> Placed(g, [], ofs / SZDIRE, 0, sect)
  {
    StaticPlace(g, ofs / SZDIRE);
    hide Geo.Sound, Limit, EntrySector, ClusterOf;
    sect := g.dirbase;
    if ofs / SZDIRE >= g.nRootdir { return IntErr, sect; }
    sect := sect + ofs / g.ss;
    res := Ok;
  }

  /** `dir_sdi`: go to byte ofs of the table. It fails exactly beyond the last reachable
      entry and between entries. */
  method DirSdi(dp: Dir, ofs: nat) returns (res: FResult)
    requires dp.Open()
    modifies dp`dptr, dp`clust, dp`sect, dp`dir, dp.fs`wflag, dp.fs`winsect, dp.fs`marks, dp.fs.win, dp.fs.disk
    ensures dp.Open() && dp.fs.Img() == old(dp.fs.Img()) && dp.fs.Grows()
    ensures res == Ok || res == IntErr || (res == DiskErr && dp.fs.disk.mayFail)
    ensures res == IntErr ==> ofs % SZDIRE != 0 || ofs / SZDIRE >= Limit(dp.fs.geo, dp.chain)
    ensures res == Ok ==> ofs % SZDIRE == 0 && dp.At(ofs / SZDIRE)
  {
    hide Times, Quotient, Remainder;
    hide FatFs.Ready, FatFs.Journaled, Traced, FatOf, GoodTable, FatFs.Img, Limit, EntrySector, EntryOffset, ClusterOf;
    var g := dp.fs.geo;
    ghost var k := ofs / SZDIRE;
    TableFacts(g, dp.fs.Img(), dp.chain);
    if ofs >= MAX_DIR || ofs % SZDIRE != 0 {
      LimitBound(g, dp.chain);
      return IntErr;
    }
    if dp.chain != [] { TableLink(g, dp.fs.Img(), dp.chain, 0); }
    OffsetPlace(g, dp.chain, k);
    hide Geo.Sound, TableSector, TableSectors, IsPow2, PerSector, Geo.FsInfoApart, FatFs.Valid;
    dp.dptr := ofs;
    var clst := dp.sclust;
    if clst == 0 && g.fsType == Fat32 { clst := g.dirbase; }
    assert if dp.chain == [] then clst == 0 && g.fsType != Fat32 else clst == dp.chain[0] != 0;
    hide Dir.Open;
    var sect;
    if clst == 0 {
      res, sect := StaticEntry(g, ofs);
    } else {
      res, clst, sect := ChainedPlace(dp, clst, ofs);
    }
    if res != Ok { return; }
    dp.sect, dp.clust := sect, clst;
    dp.dir := ofs % g.ss;
  }

  lemma LimitBound(g: Geo, chain: seq<nat>)
    ensures Limit(g, chain) <= MAX_DIR / SZDIRE
  {
  }

  lemma StaticPlace(g: Geo, k: nat)
    requires g.Sound() && g.fsType != Fat32 && k < MAX_DIR / SZDIRE
    ensures k < Limit(g, []) <==> k < g.nRootdir
    ensures g.dirbase > 0 && ClusterOf(g, [], k) == 0 && EntrySector(g, [], k) == g.dirbase + k * SZDIRE / g.ss
  {
    Arithmetic();
    hide Times, Quotient, Remainder;
    StaticLimit(g, k);
    EntryPlace(g.ss, k);
  }

  lemma StaticLimit(g: Geo, k: nat)
    requires g.Sound() && g.fsType != Fat32
    ensures PerSector(g) > 0 && g.nRootdir == TableSectors(g, []) * PerSector(g) && g.dirbase > 0
    ensures k < MAX_DIR / SZDIRE ==> (k < Limit(g, []) <==> k < g.nRootdir)
  {
    Arithmetic();
    hide Times, Quotient, Remainder;
    Bounds(g);
    var n := PerSector(g);
    assert g.nRootdir == g.nRootdir / n * n + g.nRootdir % n;
  }

  // ----- where an entry lies

  /** How many entries of a table the engine can reach: all of them, up to 65536. */
  lemma LimitIs(g: Geo, img: Image, chain: seq<nat>)
    requires GoodTable(g, img, chain)
    ensures var n := if chain == [] then g.nRootdir else |chain| * g.ClusterBytes() / 32;
      Limit(g, chain) == if n < 65536 then n else 65536
  {
    TableFacts(g, img, chain);
    TimesIs(TableSectors(g, chain), PerSector(g));
    if chain == [] {
      hide Shaped, WellFormed, FatOf;
      StaticLimit(g, 0);
    } else {
      WholeTable(|chain|, g.csize, g.ss);
    }
  }

  lemma WholeTable(n: nat, c: nat, ss: nat)
    requires ValidSectorSize(ss)
    ensures Times(Times(n, c), Quotient(ss, SZDIRE)) == n * Times(c, ss) / 32
  {
    Arithmetic();
    hide Times, Quotient, Remainder;
    var m := ss / SZDIRE;
    assert ss == m * 32;
    assert n * (c * (m * 32)) == n * c * m * 32;
  }

  /** Entry k of a chained table lies at place 32 * k, which is byte rem of cluster i of the
      chain: in the sector of that cluster the byte falls into. */
  lemma ChainedEntry(g: Geo, img: Image, chain: seq<nat>, k: nat, i: nat, rem: nat)
    requires GoodTable(g, img, chain) && chain != [] && k < Limit(g, chain)
    requires k * 32 == i * g.ClusterBytes() + rem && rem < g.ClusterBytes()
    ensures g.ss > 0 && i < |chain|
    ensures EntrySector(g, chain, k) == g.database + (chain[i] - 2) * g.csize + rem / g.ss
    ensures EntryOffset(g, k) == rem % g.ss
  {
    hide Times, Quotient, Remainder, Geo.ClusterBytes, Clusters, IsPow2, Geo.End;
    hide GoodTable, Geo.Sound, EntrySector, EntryOffset, Limit, TableSectors, Clust2Sect, PerSector;
    TableFacts(g, img, chain);
    LimitBound(g, chain);
    EntryInside(g, img, chain, k);
    ChainPlace(g, chain, k, i, rem);
    ChainedAt(g, chain, k, i, rem);
  }

  lemma ChainedAt(g: Geo, chain: seq<nat>, k: nat, i: nat, rem: nat)
    requires g.Sound() && chain != [] && Clusters(g, chain) && k < Limit(g, chain) && k < MAX_DIR / SZDIRE
    requires k < Times(TableSectors(g, chain), PerSector(g)) && rem < g.ClusterBytes() && k * 32 == i * g.ClusterBytes() + rem
    ensures i < |chain| && g.ss > 0 && EntrySector(g, chain, k) == g.database + (chain[i] - 2) * g.csize + rem / g.ss
  {
    Bounds(g);
    hide Geo.Sound, EntrySector, EntryOffset, Limit, TableSectors, PerSector, Geo.ClusterBytes, Clust2Sect;
    ChainPlace(g, chain, k, i, rem);
    InChainPlace(g, chain, k, i, rem);
    ClusterSectors(g, chain[i]);
  }

  /** Entry k of the static root directory lies at place 32 * k behind its first sector. */
  lemma RootEntry(g: Geo, img: Image, k: nat)
    requires GoodTable(g, img, []) && k < Limit(g, [])
    ensures g.ss > 0 && EntrySector(g, [], k) == g.dirbase + k * 32 / g.ss && EntryOffset(g, k) == k * 32 % g.ss
  {
    hide Times, Quotient, Remainder, WellFormed, FatOf;
    TableFacts(g, img, []);
    LimitBound(g, []);
    EntryInside(g, img, [], k);
    StaticPlace(g, k);
    hide Geo.Sound, EntrySector, EntryOffset, Limit, TableSectors;
  }

  lemma EntryInside(g: Geo, img: Image, chain: seq<nat>, k: nat)
    requires GoodTable(g, img, chain) && k < Limit(g, chain)
    ensures k < Times(TableSectors(g, chain), PerSector(g)) && EntryOffset(g, k) == k * 32 % g.ss
    ensures EntrySector(g, chain, k) < |img| && EntryOffset(g, k) + 32 <= |img[EntrySector(g, chain, k)]|
  {
    Arithmetic();
    hide Times, Quotient, Remainder;
    TableFacts(g, img, chain);
    EntryPlace(g.ss, k);
    DivBelow(k, TableSectors(g, chain), PerSector(g));
    TablePlace(g, img, chain, k / PerSector(g));
    hide GoodTable, TableSectors, TableSector;
  }
}
