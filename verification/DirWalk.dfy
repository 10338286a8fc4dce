/** `dir_next`: from entry to entry, and its agreement with `dir_sdi`. */
module DirWalk {
  import opened Allocator
  import opened Arith
  import opened Bytes
  import opened Chains
  import opened DirStretch
  import opened DirTable
  import opened FatEntries
  import opened FatTable
  import opened FileLayout
  import opened Geometry
  import opened Media
  import opened Window

  /** The next sector of a table: in the same cluster, or first of the next one. */
  lemma NextIndex(g: Geo, q: nat)
    requires g.csize > 0
    ensures InnerIndex(g, q + 1) != 0 ==> ClusterIndex(g, q + 1) == ClusterIndex(g, q) && InnerIndex(g, q + 1) == InnerIndex(g, q) + 1
    ensures InnerIndex(g, q + 1) == 0 ==> ClusterIndex(g, q + 1) == ClusterIndex(g, q) + 1
  {
    IndexSplit(g, q);
    var i, r := ClusterIndex(g, q), InnerIndex(g, q);
    if r + 1 < g.csize {
      IndexOf(g, i, r + 1);
    } else {
      IndexOf(g, i + 1, 0);
      assert (i + 1) * g.csize == i * g.csize + g.csize;
    }
  }

  lemma NextSlot(g: Geo, k: nat)
    requires ValidSectorSize(g.ss)
    ensures PerSector(g) > 0
    ensures (k + 1) * SZDIRE % g.ss == 0 ==> (k + 1) / PerSector(g) == k / PerSector(g) + 1 && EntryOffset(g, k + 1) == 0
    ensures (k + 1) * SZDIRE % g.ss != 0 ==> (k + 1) / PerSector(g) == k / PerSector(g)
    ensures EntryOffset(g, k + 1) == (k + 1) * SZDIRE % g.ss
  {
    Arithmetic();
    hide Times, Quotient, Remainder;
    EntryPlace(g.ss, k + 1);
    CountOn(k, PerSector(g));
    assert g.ss / SZDIRE == PerSector(g);
    hide PerSector;
  }

  /** Counting on in groups of n. */
  lemma CountOn(k: nat, n: nat)
    requires n > 0
    ensures if (k + 1) % n == 0 then (k + 1) / n == k / n + 1 else (k + 1) / n == k / n
  {
    var q, r := k / n, k % n;
    assert k == q * n + r;
    if r + 1 < n { DivUnique(k + 1, n, q, r + 1); } else { assert (q + 1) * n == q * n + n; DivUnique(k + 1, n, q + 1, 0); }
  }

  /** Within a sector the place changes only by its offset. */
  lemma StepInside(g: Geo, chain: seq<nat>, k: nat)
    requires ValidSectorSize(g.ss) && g.csize > 0 && k < Limit(g, chain) && k + 1 < MAX_DIR / SZDIRE
    requires (k + 1) * SZDIRE % g.ss != 0
    ensures k + 1 < Limit(g, chain) && EntrySector(g, chain, k + 1) == EntrySector(g, chain, k)
    ensures ClusterOf(g, chain, k + 1) == ClusterOf(g, chain, k)
  {
    Arithmetic();
    hide Times, Quotient, Remainder;
    NextSlot(g, k);
    OffsetPlace(g, chain, k);
    OffsetPlace(g, chain, k + 1);
    hide TableSectors, TableSector;
  }

  /** At a sector boundary of a static table. */
  lemma StepStatic(g: Geo, k: nat)
    requires g.Sound() && g.fsType != Fat32 && k < Limit(g, []) && k + 1 < MAX_DIR / SZDIRE
    requires (k + 1) * SZDIRE % g.ss == 0
    ensures k + 1 < Limit(g, []) <==> k + 1 < g.nRootdir
    ensures EntrySector(g, [], k + 1) == EntrySector(g, [], k) + 1 && ClusterOf(g, [], k + 1) == 0 == ClusterOf(g, [], k)
  {
    Arithmetic();
    hide Times, Quotient, Remainder;
    NextSlot(g, k);
    StaticLimit(g, k + 1);
  }

  /** At a sector boundary of a chained table. */
  lemma StepChained(g: Geo, chain: seq<nat>, k: nat)
    requires ValidSectorSize(g.ss) && 0 < g.csize <= 128 && IsPow2(g.csize) && chain != [] && k < Limit(g, chain)
    requires (k + 1) * SZDIRE % g.ss == 0 && k + 1 < MAX_DIR / SZDIRE
    ensures PerSector(g) > 0
    ensures var q := (k + 1) / PerSector(g);
      && BitAnd((k + 1) * SZDIRE / g.ss, g.csize - 1) == InnerIndex(g, q)
      && q > 0 && ClusterIndex(g, q - 1) < |chain| && ClusterOf(g, chain, k) == chain[ClusterIndex(g, q - 1)]
      && (InnerIndex(g, q) != 0 ==>
        && k + 1 < Limit(g, chain) && EntrySector(g, chain, k + 1) == EntrySector(g, chain, k) + 1
        && ClusterOf(g, chain, k + 1) == ClusterOf(g, chain, k))
      && (InnerIndex(g, q) == 0 ==> ClusterIndex(g, q) == ClusterIndex(g, q - 1) + 1)
      && (InnerIndex(g, q) == 0 ==> (k + 1 < Limit(g, chain) <==> ClusterIndex(g, q) < |chain|))
  {
    Arithmetic();
    hide Times, Quotient, Remainder;
    NextSlot(g, k);
    EntryPlace(g.ss, k + 1);
    OffsetPlace(g, chain, k);
    OffsetPlace(g, chain, k + 1);
    var q := (k + 1) / PerSector(g);
    MaskIsMod((k + 1) * SZDIRE / g.ss, g.csize);
    NextIndex(g, q - 1);
    hide BitAnd, IsPow2, InnerIndex, ClusterIndex;
    InTable(g, chain, q - 1);
    InTable(g, chain, q);
  }

  lemma InTable(g: Geo, chain: seq<nat>, q: nat)
    requires g.csize > 0 && chain != []
    ensures q < TableSectors(g, chain) <==> ClusterIndex(g, q) < |chain|
  {
    Arithmetic();
    hide Times, Quotient, Remainder;
    if q < |chain| * g.csize { DivBelow(q, |chain|, g.csize); }
    if q / g.csize < |chain| {
      MulMono(q / g.csize + 1, |chain|, g.csize);
      assert (q / g.csize + 1) * g.csize == q / g.csize * g.csize + g.csize;
    }
  }

  /** The first entry of cluster i + 1 of a table. */
  lemma ClusterStart(g: Geo, chain: seq<nat>, k: nat, i: nat)
    requires ValidSectorSize(g.ss) && g.csize > 0 && i < |chain| && g.ValidCluster(chain[i]) && g.Sound()
    requires (k + 1) * SZDIRE % g.ss == 0 && k + 1 < MAX_DIR / SZDIRE && PerSector(g) > 0
    requires InnerIndex(g, (k + 1) / PerSector(g)) == 0 && ClusterIndex(g, (k + 1) / PerSector(g)) == i
    ensures k + 1 < Limit(g, chain) && g.nFatent >= 2
    ensures EntrySector(g, chain, k + 1) == Clust2Sect(g, chain[i]) > 0 && ClusterOf(g, chain, k + 1) == chain[i]
    ensures EntryOffset(g, k + 1) == 0
  {
    Arithmetic();
    hide Times, Quotient, Remainder;
    NextSlot(g, k);
    OffsetPlace(g, chain, k + 1);
    InTable(g, chain, (k + 1) / PerSector(g));
    ClusterSectors(g, chain[i]);
    Bounds(g);
    assert Clust2Sect(g, chain[i]) == ClusterBase(g, chain[i]);
    hide Clust2Sect, ClusterIndex, InnerIndex, ClusterBase, Geo.Sound;
  }

  /** What a step may do to the table: nothing, or stretch it behind its last entry. */
  ghost predicate Moved(g: Geo, img: Image, chain: seq<nat>, img': Image, chain': seq<nat>, k: nat)
  {
    if k + 1 < Limit(g, chain) then
      img' == img && chain' == chain
    else
      && chain != [] && |chain'| == |chain| + 1 && chain' == chain + [chain'[|chain|]]
      && Stretched(g, img, chain, img', chain'[|chain|])
  }

  /** "Cluster changed": the next cluster of the table, stretching it if asked. */
  method NextTableCluster(dp: Dir, stretch: bool, ghost i: nat) returns (res: FResult, clst: nat)
    requires dp.Open() && i < |dp.chain| && dp.clust == dp.chain[i]
    modifies dp`chain, dp.fs`wflag, dp.fs`winsect, dp.fs`marks, dp.fs`log, dp.fs`fats, dp.fs`lastClst, dp.fs`freeClst, dp.fs`fsiDirty, dp.fs.win, dp.fs.disk
    ensures StaysSafe(dp.fs, res != DiskErr)
    ensures dp.fs.Valid() && dp.fs.Grows()
    ensures res == Ok || res == NoFile || res == Denied || (res == DiskErr && dp.fs.disk.mayFail)
    ensures res == NoFile ==> !stretch && i + 1 == |dp.chain| && dp.Open() && dp.chain == old(dp.chain) && dp.fs.Img() == old(dp.fs.Img())
    ensures res == Denied ==> stretch && i + 1 == |dp.chain| && dp.Open() && dp.chain == old(dp.chain) && dp.fs.Img() == old(dp.fs.Img()) && NoneFree(dp.fs.Fat())
    ensures res == Ok ==> dp.Open() && i + 1 < |dp.chain| && clst == dp.chain[i + 1]
    ensures res == Ok && i + 1 < |old(dp.chain)| ==> dp.chain == old(dp.chain) && dp.fs.Img() == old(dp.fs.Img())
    ensures res == Ok && i + 1 == |old(dp.chain)| ==>
      stretch && dp.chain == old(dp.chain) + [clst] && Stretched(dp.fs.geo, old(dp.fs.Img()), old(dp.chain), dp.fs.Img(), clst)
  {
    hide AllWellFormed, TornLast;
    hide FatFs.Ready, FatFs.Journaled, Traced, FatOf, GoodTable, FatFs.Img, NoneFree, Stretched;
    TableFacts(dp.fs.geo, dp.fs.Img(), dp.chain);
    TableLink(dp.fs.geo, dp.fs.Img(), dp.chain, i);
    res := Ok;
    clst := GetFat(dp.fs, dp.clust);
    if clst <= 1 { return IntErr, clst; }
    if clst == 0xFFFF_FFFF { return DiskErr, clst; }
    if clst >= dp.fs.geo.nFatent {
      if !stretch { return NoFile, clst; }
      res, clst := StretchTable(dp);
    }
  }

  /** The current place is a sector of the table, and its cluster one of the chain. */
  lemma HereIs(g: Geo, img: Image, chain: seq<nat>, k: nat)
    requires GoodTable(g, img, chain) && k < Limit(g, chain)
    ensures EntrySector(g, chain, k) > 0 && k + 1 <= Limit(g, chain) <= MAX_DIR / SZDIRE
    ensures ClusterOf(g, chain, k) == 0 <==> chain == []
  {
    Arithmetic();
    hide Times, Quotient, Remainder;
    hide GoodTable, TableSector, PerSector, SectorOf;
    TableFacts(g, img, chain);
    DivBelow(k, TableSectors(g, chain), PerSector(g));
    hide TableSectors;
    TablePlace(g, img, chain, k / PerSector(g));
    if chain != [] {
      InTable(g, chain, k / PerSector(g));
      TableLink(g, img, chain, ClusterIndex(g, k / PerSector(g)));
    }
  }

  /** "Sector changed": the sector and the cluster of the next entry. */
  method NextSector(dp: Dir, stretch: bool, ofs: nat, ghost k: nat) returns (res: FResult)
    requires dp.Open() && dp.At(k) && ofs == (k + 1) * SZDIRE < MAX_DIR && dp.fs.geo.ss > 0 && ofs % dp.fs.geo.ss == 0
    modifies dp`clust, dp`sect, dp`chain
    modifies dp.fs`wflag, dp.fs`winsect, dp.fs`marks, dp.fs`log, dp.fs`fats, dp.fs`lastClst, dp.fs`freeClst, dp.fs`fsiDirty, dp.fs.win, dp.fs.disk
    ensures StaysSafe(dp.fs, res != DiskErr)
    ensures dp.fs.Valid() && dp.fs.Grows()
    ensures res == Ok || res == NoFile || res == Denied || (res == DiskErr && dp.fs.disk.mayFail)
    ensures res == Ok ==>
      && dp.Open() && Placed(dp.fs.geo, dp.chain, k + 1, dp.clust, dp.sect)
      && Moved(dp.fs.geo, old(dp.fs.Img()), old(dp.chain), dp.fs.Img(), dp.chain, k)
    ensures res == Ok && !stretch ==> k + 1 < Limit(dp.fs.geo, old(dp.chain))
    ensures res == NoFile || res == Denied ==>
      && dp.Open() && dp.chain == old(dp.chain) && dp.fs.Img() == old(dp.fs.Img()) && k + 1 >= Limit(dp.fs.geo, dp.chain)
    ensures res == NoFile && stretch ==> dp.chain == []
    ensures res == Denied ==> stretch && NoneFree(dp.fs.Fat())
  {
    hide Times, Quotient, Remainder;
    hide AllWellFormed, TornLast;
    hide FatFs.Ready, FatFs.Journaled, Traced, FatOf, GoodTable, FatFs.Img, NoneFree, Stretched, Limit, EntrySector, EntryOffset, ClusterOf, IsPow2, BitAnd;
    var g := dp.fs.geo;
    TableFacts(g, dp.fs.Img(), dp.chain);
    HereIs(g, dp.fs.Img(), dp.chain, k);
    dp.sect := dp.sect + 1;
    if dp.clust == 0 {
      StepStatic(g, k);
      if ofs / SZDIRE >= g.nRootdir {
        dp.sect := 0;
        return NoFile;
      }
    } else {
      StepChained(g, dp.chain, k);
      if BitAnd(ofs / g.ss, g.csize - 1) == 0 {
        res := EnterNextCluster(dp, stretch, k);
        return;
      }
    }
    res := Ok;
  }

  /** Entry j is the first of a cluster. */
  ghost predicate StartsCluster(g: Geo, j: nat)
  {
    && j * SZDIRE < MAX_DIR && g.ss > 0 && j * SZDIRE % g.ss == 0
    && PerSector(g) > 0 && InnerIndex(g, j / PerSector(g)) == 0
  }

  method EnterNextCluster(dp: Dir, stretch: bool, ghost k: nat) returns (res: FResult)
    requires dp.Open() && dp.chain != [] && dp.clust == ClusterOf(dp.fs.geo, dp.chain, k) && k < Limit(dp.fs.geo, dp.chain)
    requires StartsCluster(dp.fs.geo, k + 1)
    modifies dp`clust, dp`sect, dp`chain
    modifies dp.fs`wflag, dp.fs`winsect, dp.fs`marks, dp.fs`log, dp.fs`fats, dp.fs`lastClst, dp.fs`freeClst, dp.fs`fsiDirty, dp.fs.win, dp.fs.disk
    ensures StaysSafe(dp.fs, res != DiskErr)
    ensures dp.fs.Valid() && dp.fs.Grows()
    ensures res == Ok || res == NoFile || res == Denied || (res == DiskErr && dp.fs.disk.mayFail)
    ensures res == Ok ==>
      && dp.Open() && Placed(dp.fs.geo, dp.chain, k + 1, dp.clust, dp.sect)
      && Moved(dp.fs.geo, old(dp.fs.Img()), old(dp.chain), dp.fs.Img(), dp.chain, k)
    ensures res == Ok && !stretch ==> k + 1 < Limit(dp.fs.geo, old(dp.chain))
    ensures res == NoFile || res == Denied ==>
      && dp.Open() && dp.chain == old(dp.chain) && dp.fs.Img() == old(dp.fs.Img()) && k + 1 >= Limit(dp.fs.geo, dp.chain)
    ensures res == NoFile ==> !stretch
    ensures res == Denied ==> stretch && NoneFree(dp.fs.Fat())
  {
    hide Times, Quotient, Remainder;
    hide AllWellFormed, TornLast;
    hide FatFs.Ready, FatFs.Journaled, Traced, FatOf, GoodTable, FatFs.Img, NoneFree, Stretched, Limit, EntrySector, EntryOffset, ClusterOf, IsPow2, BitAnd, ClusterIndex, InnerIndex, Clust2Sect;
    var g := dp.fs.geo;
    TableFacts(g, dp.fs.Img(), dp.chain);
    StepChained(g, dp.chain, k);
    ghost var i := ClusterIndex(g, (k + 1) / PerSector(g)) - 1;
    var clst;
    res, clst := NextTableCluster(dp, stretch, i);
    if res == NoFile {
      dp.sect := 0;
      return;
    }
    if res != Ok { return; }
    TableLink(g, dp.fs.Img(), dp.chain, i + 1);
    TableFacts(g, dp.fs.Img(), dp.chain);
    ClusterStart(g, dp.chain, k, i + 1);
    dp.clust := clst;
    dp.sect := Clust2Sect(g, clst);
  }

  /** `dir_next` from entry k. */
  method DirNext(dp: Dir, stretch: bool, ghost k: nat) returns (res: FResult)
    requires dp.Open() && dp.At(k)
    modifies dp`dptr, dp`clust, dp`sect, dp`dir, dp`chain
    modifies dp.fs`wflag, dp.fs`winsect, dp.fs`marks, dp.fs`log, dp.fs`fats, dp.fs`lastClst, dp.fs`freeClst, dp.fs`fsiDirty, dp.fs.win, dp.fs.disk
    ensures StaysSafe(dp.fs, res != DiskErr)
    ensures dp.fs.Valid() && dp.fs.Grows()
    ensures res == Ok || res == NoFile || res == Denied || (res == DiskErr && dp.fs.disk.mayFail)
    ensures res == Ok ==> dp.Open() && dp.At(k + 1) && Moved(dp.fs.geo, old(dp.fs.Img()), old(dp.chain), dp.fs.Img(), dp.chain, k)
    ensures res == Ok && !stretch ==> k + 1 < Limit(dp.fs.geo, old(dp.chain))
    ensures res == NoFile || res == Denied ==>
      && dp.Open() && dp.chain == old(dp.chain) && dp.fs.Img() == old(dp.fs.Img()) && k + 1 == Limit(dp.fs.geo, dp.chain)
    ensures res == NoFile && stretch ==> dp.chain == [] || k + 1 == MAX_DIR / SZDIRE
    ensures res == Denied ==> stretch && NoneFree(dp.fs.Fat())
  {
    hide Times, Quotient, Remainder;
    hide AllWellFormed, TornLast;
    hide FatFs.Ready, FatFs.Journaled, Traced, FatOf, GoodTable, FatFs.Img, NoneFree, Stretched, Limit, EntrySector, EntryOffset, ClusterOf, IsPow2, BitAnd, InnerIndex, ClusterIndex, Clust2Sect;
    var g := dp.fs.geo;
    TableFacts(g, dp.fs.Img(), dp.chain);
    LimitBound(g, dp.chain);
    HereIs(g, dp.fs.Img(), dp.chain, k);
    NextSlot(g, k);
    var ofs := dp.dptr + SZDIRE;
    if dp.sect == 0 || ofs >= MAX_DIR { return NoFile; }
    if ofs % g.ss == 0 {
      res := NextSector(dp, stretch, ofs, k);
      if res != Ok { return; }
    } else {
      StepInside(g, dp.chain, k);
    }
    res := Ok;
    dp.dptr := ofs;
    dp.dir := ofs % g.ss;
  }

  // ----- positioning agrees

  /** `dir_sdi` to the start and k times `dir_next`: reaches entry k if the table has it. */
  method WalkTo(dp: Dir, k: nat) returns (res: FResult)
    requires dp.Open()
    modifies dp`dptr, dp`clust, dp`sect, dp`dir, dp`chain
    modifies dp.fs`wflag, dp.fs`winsect, dp.fs`marks, dp.fs`log, dp.fs`fats, dp.fs`lastClst, dp.fs`freeClst, dp.fs`fsiDirty, dp.fs.win, dp.fs.disk
    ensures StaysSafe(dp.fs, res != DiskErr)
    ensures dp.fs.Valid() && dp.fs.Grows()
    ensures res != DiskErr ==> dp.Open() && dp.chain == old(dp.chain) && dp.fs.Img() == old(dp.fs.Img())
    ensures res == Ok || res == NoFile || (res == DiskErr && dp.fs.disk.mayFail)
    ensures res == Ok ==> dp.At(k)
    ensures res == NoFile ==> k >= Limit(dp.fs.geo, dp.chain)
  {
    hide AllWellFormed, TornLast;
    hide FatFs.Ready, FatFs.Journaled, Traced, FatOf, GoodTable, FatFs.Img, Limit, Dir.At;
    FirstEntry(dp.fs.geo, dp.fs.Img(), dp.chain);
    res := DirSdi(dp, 0);
    var i := 0;
    while res == Ok && i < k
      invariant StaysSafe(dp.fs, res != DiskErr)
      invariant i <= k && dp.fs.Valid() && dp.fs.Grows()
      invariant res == Ok || res == NoFile || (res == DiskErr && dp.fs.disk.mayFail)
      invariant res != DiskErr ==> dp.Open() && dp.chain == old(dp.chain) && dp.fs.Img() == old(dp.fs.Img())
      invariant res == Ok ==> dp.At(i)
      invariant res == NoFile ==> k >= Limit(dp.fs.geo, dp.chain)
    {
      res := DirNext(dp, false, i);
      i := i + 1;
    }
  }

  lemma FirstEntry(g: Geo, img: Image, chain: seq<nat>)
    requires GoodTable(g, img, chain)
    ensures Limit(g, chain) > 0
  {
    TableFacts(g, img, chain);
    MulAtLeast(TableSectors(g, chain), PerSector(g));
  }

  datatype Position = Position(dptr: nat, clust: nat, sect: nat, dir: nat)

  /** Both ways of positioning succeed for the same entries and end in the same place. */
  method BothWays(dp: Dir, k: nat) returns (direct: FResult, stepped: FResult, a: Position, b: Position)
    requires dp.Open() && !dp.fs.disk.mayFail
    modifies dp`dptr, dp`clust, dp`sect, dp`dir, dp`chain
    modifies dp.fs`wflag, dp.fs`winsect, dp.fs`marks, dp.fs`log, dp.fs`fats, dp.fs`lastClst, dp.fs`freeClst, dp.fs`fsiDirty, dp.fs.win, dp.fs.disk
    ensures StaysSafe(dp.fs, true)
    ensures dp.Open() && dp.chain == old(dp.chain) && dp.fs.Img() == old(dp.fs.Img())
    ensures direct == Ok <==> k < Limit(dp.fs.geo, dp.chain)
    ensures stepped == Ok <==> k < Limit(dp.fs.geo, dp.chain)
    ensures k < Limit(dp.fs.geo, dp.chain) ==> a == b
  {
    hide AllWellFormed, TornLast;
    hide FatFs.Ready, FatFs.Journaled, Traced, FatOf, GoodTable, FatFs.Img, Limit, EntrySector, EntryOffset, ClusterOf;
    assert k * SZDIRE / SZDIRE == k && k * SZDIRE % SZDIRE == 0;
    direct := DirSdi(dp, k * SZDIRE);
    a := Position(dp.dptr, dp.clust, dp.sect, dp.dir);
    stepped := WalkTo(dp, k);
    b := Position(dp.dptr, dp.clust, dp.sect, dp.dir);
  }
}
