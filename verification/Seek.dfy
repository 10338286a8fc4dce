/** `f_lseek`: the walk along the FAT, the link map that replaces it, and their agreement. */
module Seek {
  import opened Allocator
  import opened Arith
  import opened Bytes
  import opened Chains
  import opened FatEntries
  import opened FatTable
  import opened FileBytes
  import opened FileLayout
  import opened FileModel
  import opened Files
  import opened Geometry
  import opened LinkMap
  import opened Media
  import opened Window

  /** Position i * ClusterBytes + r, with 1 <= r <= ClusterBytes, ends in cluster i. */
  lemma ClusterEnd(g: Geo, i: nat, r: nat)
    requires ValidSectorSize(g.ss) && g.csize > 0 && 1 <= r <= g.ClusterBytes()
    ensures ClusterIndex(g, Sec(g, i * g.ClusterBytes() + r - 1)) == i
    ensures Off(g, i * g.ClusterBytes() + r) == r % g.ss
    ensures r % g.ss != 0 ==>
      && r / g.ss < g.csize
      && Sec(g, i * g.ClusterBytes() + r) == i * g.csize + r / g.ss
      && ClusterIndex(g, Sec(g, i * g.ClusterBytes() + r)) == i
      && InnerIndex(g, Sec(g, i * g.ClusterBytes() + r)) == r / g.ss
  {
    Arithmetic();
    hide Times, Quotient, Remainder;
    var b, k := r - 1, (r - 1) / g.ss;
    DivBelow(b, g.csize, g.ss);
    ClusterPos(g, i, b);
    IndexOf(g, i, k);
    ClusterPos(g, i, r);
    if r % g.ss != 0 {
      assert (r - 1) / g.ss == r / g.ss by { DivUnique(r - 1, g.ss, r / g.ss, r % g.ss - 1); }
    }
  }

  lemma ClusterBytesPow2(g: Geo)
    requires ValidSectorSize(g.ss) && IsPow2(g.csize) && 0 < g.csize <= 128
    ensures IsPow2(g.ClusterBytes()) && 0 < g.ClusterBytes() <= 0x8_0000
  {
    Arithmetic();
    hide Times, Quotient, Remainder;
    SectorSizePow2(g.ss);
    Pow2Product(g.csize, g.ss);
    MulMono(g.csize, 128, g.ss);
    MulAtLeast(g.csize, g.ss);
  }

  lemma SectorSizePow2(ss: nat)
    requires ValidSectorSize(ss)
    ensures IsPow2(ss)
  {
    assert IsPow2(64);
    assert IsPow2(512);
    assert IsPow2(4096);
  }

  /** Rounding down to a cluster boundary with a mask. */
  lemma MaskToCluster(g: Geo, p: nat)
    requires ValidSectorSize(g.ss) && IsPow2(g.csize) && 0 < g.csize <= 128 && p < TWO32
    ensures 0 < g.ClusterBytes() <= 0x8_0000
    ensures BitAnd(p, Not32(g.ClusterBytes() - 1)) == p / g.ClusterBytes() * g.ClusterBytes()
    ensures ClusterIndex(g, Sec(g, p)) == p / g.ClusterBytes()
  {
    ClusterBytesPow2(g);
    Pow2Of32();
    RoundDown(p, g.ClusterBytes());
    ClusterIndexIs(g, p);
  }

  lemma RoundDown(p: nat, n: nat)
    requires IsPow2(n) && IsPow2(TWO32) && 0 < n <= 0x8_0000 && p < TWO32
    ensures BitAnd(p, Not32(n - 1)) == p / n * n
  {
    hide IsPow2, BitAnd;
    ClearLow(p, n, TWO32);
    assert p == p / n * n + p % n;
  }

  lemma ClusterIndexIs(g: Geo, p: nat)
    requires g.ss > 0 && g.csize > 0
    ensures g.ClusterBytes() > 0 && ClusterIndex(g, Sec(g, p)) == p / g.ClusterBytes()
  {
    Arithmetic();
    hide Times, Quotient, Remainder;
    MulAtLeast(g.csize, g.ss);
    DivDiv(p, g.ss, g.csize);
    assert g.ss * g.csize == g.ClusterBytes();
  }

  /** One step of the cluster following loop: to cluster i + 1, stretching the chain in
      write mode. */
  method StepCluster(fp: Fil, ghost i: nat) returns (res: FResult, clst: nat)
    requires fp.Open() && i < |fp.chain| && fp.clust == fp.chain[i]
    requires !fp.canWrite ==> i + 1 < |fp.chain|
    modifies fp`chain, fp`sclust
    modifies fp.fs`wflag, fp.fs`winsect, fp.fs`marks, fp.fs`log, fp.fs`fats, fp.fs`lastClst, fp.fs`freeClst, fp.fs`fsiDirty, fp.fs.win, fp.fs.disk
    ensures StaysSafe(fp.fs, res != DiskErr)
    ensures fp.Intact() && fp.fs.Grows()
    ensures res == Ok || (res == DiskErr && fp.fs.disk.mayFail)
    ensures res == Ok ==> fp.Open() && fp.Data() == old(fp.Data()) && Others(old(fp.V()), old(fp.chain), fp.V(), fp.chain)
    ensures res == Ok && clst == 0 ==> NoneFree(fp.fs.Fat()) && fp.canWrite && i + 1 == |fp.chain| && fp.chain == old(fp.chain)
    ensures res == Ok && clst != 0 ==> 2 <= clst < fp.fs.geo.nFatent && i + 1 < |fp.chain| && clst == fp.chain[i + 1]
    ensures old(fp.chain) <= fp.chain && (!fp.canWrite ==> fp.chain == old(fp.chain))
  {
    hide AllWellFormed, TornLast;
    hide FatFs.Ready, FatFs.Journaled, Traced, FatOf, Good, Content, Sec, Off, FatFs.Img, MapPrefix, SectorOf, SectorCount, ClusterIndex, Others, NoneFree;
    res := Ok;
    ghost var v := fp.V();
    OthersSame(v, fp.chain, v);
    if fp.canWrite {
      res, clst := StretchFile(fp, fp.clust, i + 1);
      if res != Ok { return; }
      if clst == 0 { return; }
    } else {
      NextCluster(v, fp.F(), i);
      clst := GetFat(fp.fs, fp.clust);
      VolMoved(v, fp.F(), fp.fs.winsect);
      OthersSame(v, fp.chain, fp.V());
    }
    GeoFacts(fp.V(), fp.F());
    if clst == DISK_ERROR { return DiskErr, clst; }
    if clst <= 1 || clst >= fp.fs.geo.nFatent { return IntErr, clst; }
  }

  /** Make cluster i + 1 current; full: there is none to be had. */
  method EnterNext(fp: Fil, ghost i: nat) returns (res: FResult, full: bool)
    requires fp.Open() && i < |fp.chain| && fp.clust == fp.chain[i]
    requires !fp.canWrite ==> i + 1 < |fp.chain|
    modifies fp`clust, fp`chain, fp`sclust
    modifies fp.fs`wflag, fp.fs`winsect, fp.fs`marks, fp.fs`log, fp.fs`fats, fp.fs`lastClst, fp.fs`freeClst, fp.fs`fsiDirty, fp.fs.win, fp.fs.disk
    ensures StaysSafe(fp.fs, res != DiskErr)
    ensures fp.Intact() && fp.fs.Grows()
    ensures res == Ok || (res == DiskErr && fp.fs.disk.mayFail)
    ensures res == Ok ==> fp.Open() && fp.Data() == old(fp.Data()) && Others(old(fp.V()), old(fp.chain), fp.V(), fp.chain)
    ensures res == Ok && full ==> NoneFree(fp.fs.Fat()) && fp.canWrite && i + 1 == |fp.chain| && fp.clust == fp.chain[i]
    ensures res == Ok && !full ==> i + 1 < |fp.chain| && fp.clust == fp.chain[i + 1]
    ensures old(fp.chain) <= fp.chain && (!fp.canWrite ==> fp.chain == old(fp.chain))
  {
    hide AllWellFormed, TornLast;
    hide FatFs.Ready, FatFs.Journaled, Traced, FatOf, Good, Content, FatFs.Img, MapPrefix, Others, NoneFree;
    var clst;
    res, clst := StepCluster(fp, i);
    full := clst == 0;
    if res != Ok || full { return; }
    Reclust(fp.V(), fp.F(), clst);
    fp.clust := clst;
  }

  /** The cluster following loop of `f_lseek`. It ends in the cluster that holds the
      target, or, if the volume is full, at the end of the last cluster. */
  method WalkChain(fp: Fil, base0: nat, rem: nat, ghost i0: nat) returns (res: FResult, base: nat, ofs: nat, full: bool, ghost i: nat)
    requires fp.Open() && i0 < |fp.chain| && fp.clust == fp.chain[i0]
    requires rem > 0 && base0 == i0 * fp.fs.geo.ClusterBytes()
    requires !fp.canWrite ==> base0 + rem <= |fp.chain| * fp.fs.geo.ClusterBytes()
    modifies fp`clust, fp`chain, fp`sclust
    modifies fp.fs`wflag, fp.fs`winsect, fp.fs`marks, fp.fs`log, fp.fs`fats, fp.fs`lastClst, fp.fs`freeClst, fp.fs`fsiDirty, fp.fs.win, fp.fs.disk
    ensures StaysSafe(fp.fs, res != DiskErr)
    ensures fp.Intact() && fp.fs.Grows()
    ensures res == Ok || (res == DiskErr && fp.fs.disk.mayFail)
    ensures res == Ok ==> fp.Open() && fp.Data() == old(fp.Data()) && Others(old(fp.V()), old(fp.chain), fp.V(), fp.chain)
    ensures res == Ok ==> i < |fp.chain| && fp.clust == fp.chain[i]
    ensures res == Ok && !full ==>
      base == i * fp.fs.geo.ClusterBytes() && 1 <= ofs <= fp.fs.geo.ClusterBytes() && base + ofs == base0 + rem
    ensures res == Ok && full ==>
      && NoneFree(fp.fs.Fat()) && fp.canWrite && i + 1 == |fp.chain| && ofs == 0
      && base == i * fp.fs.geo.ClusterBytes() + fp.fs.geo.ClusterBytes() && base < base0 + rem
    ensures old(fp.chain) <= fp.chain
  {
    hide AllWellFormed, TornLast;
    hide FatFs.Ready, FatFs.Journaled, Traced, FatOf, Good, Content, Sec, Off, FatFs.Img, MapPrefix, SectorOf, SectorCount, ClusterIndex, Others, NoneFree;
    var bcs := fp.fs.geo.ClusterBytes();
    GeoFacts(fp.V(), fp.F());
    MulAtLeast(fp.fs.geo.csize, fp.fs.geo.ss);
    hide Geo.ClusterBytes, FatFs.Grows, Fil.Mapped, FatFs.Valid;
    ghost var v0, c0 := fp.V(), fp.chain;
    OthersSame(v0, c0, v0);
    res, base, ofs, full, i := Ok, base0, rem, false, i0;
    while ofs > bcs
      invariant old(AllWellFormed(fp.fs.fats)) ==> AllWellFormed(fp.fs.fats)
      invariant res == Ok && !full && fp.Open() && fp.fs.Grows() && fp.Data() == old(fp.Data())
      invariant i < |fp.chain| && fp.clust == fp.chain[i]
      invariant base == i * bcs && ofs >= 1 && base + ofs == base0 + rem
      invariant Others(v0, c0, fp.V(), fp.chain) && c0 <= fp.chain
      invariant !fp.canWrite ==> fp.chain == c0
    {
      ghost var v1, c1 := fp.V(), fp.chain;
      NotLast(i, |fp.chain|, bcs, ofs, fp.canWrite);
      ofs := ofs - bcs;
      base := base + bcs;
      res, full := EnterNext(fp, i);
      OthersTrans3(v0, c0, v1, c1, fp.V(), fp.chain, res == Ok);
      if res != Ok { return; }
      if full {
        ofs := 0;
        return;
      }
      i := i + 1;
    }
  }

  lemma NotLast(i: nat, n: nat, bcs: nat, ofs: nat, write: bool)
    requires i < n && ofs > bcs && (!write ==> i * bcs + ofs <= n * bcs)
    ensures !write ==> i + 1 < n
    ensures (i + 1) * bcs == i * bcs + bcs
  {
  }

  /** The current cluster and sector nsect are those of position pos. */
  ghost predicate Reaches(g: Geo, chain: seq<nat>, clust: nat, pos: nat, nsect: nat)
  {
    && g.ss > 0 && pos <= SectorCount(g, chain) * g.ss
    && (Off(g, pos) != 0 ==> Sec(g, pos) < SectorCount(g, chain) && nsect == SectorOf(g, chain, Sec(g, pos)))
    && (pos > 0 ==> Holds(g, chain, clust, Sec(g, pos - 1)))
  }

  /** Off a sector boundary, bring the target's sector into the buffer. */
  method LoadTarget(fp: Fil, pos: nat, nsect: nat) returns (res: FResult)
    requires fp.Open() && fp.fptr == 0 && fp.fs.geo.ss > 0
    requires Off(fp.fs.geo, pos) != 0 ==> Sec(fp.fs.geo, pos) < SectorCount(fp.fs.geo, fp.chain) && nsect == SectorOf(fp.fs.geo, fp.chain, Sec(fp.fs.geo, pos))
    modifies fp`dirty, fp`sect, fp`bix, fp.buf, fp.fs`marks, fp.fs`bypass, fp.fs.disk
    ensures fp.Intact() && fp.fs.Grows()
    ensures res == Ok || (res == DiskErr && fp.fs.disk.mayFail)
    ensures res == Ok ==> fp.Open() && fp.Data() == old(fp.Data()) && fp.fs.Fat() == old(fp.fs.Fat())
    ensures res == Ok ==> Others(old(fp.V()), fp.chain, fp.V(), fp.chain)
    ensures res == Ok && Off(fp.fs.geo, pos) != 0 ==> fp.sect != 0 && fp.bix == Sec(fp.fs.geo, pos)
  {
    hide FatFs.Ready, FatFs.Journaled, Traced, FatOf, Good, Content, Sec, Off, FatFs.Img, MapPrefix, SectorOf, SectorCount, ClusterIndex, Others, NoneFree;
    res := Ok;
    OthersSame(fp.V(), fp.chain, fp.V());
    OffIs(fp.fs.geo, pos);
    FirstOffset(fp.fs.geo);
    if Off(fp.fs.geo, pos) != 0 { SameSector(fp.V(), fp.F(), Sec(fp.fs.geo, pos)); }
    if pos % fp.fs.geo.ss != 0 && nsect != fp.sect {
      res := FlushBuf(fp);
      if res != Ok { return; }
      res := ReadBuf(fp, nsect, Sec(fp.fs.geo, pos));
    }
  }

  lemma OffIs(g: Geo, p: nat)
    requires g.ss > 0
    ensures Off(g, p) == p % g.ss
  {
    Arithmetic();
    hide Times, Quotient, Remainder;
  }

  /** Where the cluster walk starts: at the current cluster for a target in it or behind
      it, otherwise at the first cluster. none: the volume had no cluster for an empty file. */
  method StartSeek(fp: Fil, ofs: nat, ifptr: nat) returns (res: FResult, base: nat, rem: nat, none: bool, ghost i: nat)
    requires fp.Open() && 0 < ofs < TWO32 && 0 <= ifptr < TWO32
    requires ifptr > 0 ==> Holds(fp.fs.geo, fp.chain, fp.clust, Sec(fp.fs.geo, ifptr - 1))
    requires !fp.canWrite ==> fp.chain != []
    modifies fp`clust, fp`chain, fp`sclust
    modifies fp.fs`wflag, fp.fs`winsect, fp.fs`marks, fp.fs`log, fp.fs`fats, fp.fs`lastClst, fp.fs`freeClst, fp.fs`fsiDirty, fp.fs.win, fp.fs.disk
    ensures StaysSafe(fp.fs, res != DiskErr)
    ensures fp.Intact() && fp.fs.Grows()
    ensures res == Ok || (res == DiskErr && fp.fs.disk.mayFail)
    ensures res == Ok ==> fp.Open() && fp.Data() == old(fp.Data()) && Others(old(fp.V()), old(fp.chain), fp.V(), fp.chain)
    ensures res == Ok && none ==> NoneFree(fp.fs.Fat()) && fp.canWrite && fp.chain == []
    ensures res == Ok && !none ==>
      && i < |fp.chain| && fp.clust == fp.chain[i]
      && rem > 0 && base == i * fp.fs.geo.ClusterBytes() && base + rem == ofs
    ensures old(fp.chain) <= fp.chain && (!fp.canWrite ==> fp.chain == old(fp.chain))
  {
    hide AllWellFormed, TornLast;
    hide FatFs.Ready, FatFs.Journaled, Traced, FatOf, Good, Content, Sec, Off, FatFs.Img, MapPrefix, SectorOf, SectorCount, ClusterIndex, Others, NoneFree;
    GeoFacts(fp.V(), fp.F());
    OthersSame(fp.V(), fp.chain, fp.V());
    ClusterBytesPow2(fp.fs.geo);
    hide Geo.ClusterBytes, IsPow2;
    var bcs := fp.fs.geo.ClusterBytes();
    res, base, rem, none, i := Ok, 0, ofs, false, 0;
    if ifptr > 0 && (ofs - 1) / bcs >= (ifptr - 1) / bcs {
      MaskToCluster(fp.fs.geo, ifptr - 1);
      i := (ifptr - 1) / bcs;
      base := BitAnd(ifptr - 1, Not32(bcs - 1));
      StartBelow(ofs - 1, i, bcs);
      rem := ofs - base;
    } else {
      res, none := FromStart(fp);
    }
  }

  /** Back to the first cluster, allocating one if the file has none. */
  method FromStart(fp: Fil) returns (res: FResult, none: bool)
    requires fp.Open() && (!fp.canWrite ==> fp.chain != [])
    modifies fp`clust, fp`chain, fp`sclust
    modifies fp.fs`wflag, fp.fs`winsect, fp.fs`marks, fp.fs`log, fp.fs`fats, fp.fs`lastClst, fp.fs`freeClst, fp.fs`fsiDirty, fp.fs.win, fp.fs.disk
    ensures StaysSafe(fp.fs, res != DiskErr)
    ensures fp.Intact() && fp.fs.Grows()
    ensures res == Ok || (res == DiskErr && fp.fs.disk.mayFail)
    ensures res == Ok ==> fp.Open() && fp.Data() == old(fp.Data()) && Others(old(fp.V()), old(fp.chain), fp.V(), fp.chain)
    ensures res == Ok && none ==> NoneFree(fp.fs.Fat()) && fp.canWrite && fp.chain == []
    ensures res == Ok && !none ==> fp.chain != [] && fp.clust == fp.chain[0]
    ensures old(fp.chain) <= fp.chain && (!fp.canWrite ==> fp.chain == old(fp.chain))
  {
    hide AllWellFormed, TornLast;
    hide FatFs.Ready, FatFs.Journaled, Traced, FatOf, Good, Content, Sec, Off, FatFs.Img, MapPrefix, SectorOf, SectorCount, ClusterIndex, Others, NoneFree;
    OthersSame(fp.V(), fp.chain, fp.V());
    if fp.chain != [] { NextCluster(fp.V(), fp.F(), 0); }
    res := Ok;
    none := false;
    var clst := fp.sclust;
    if clst == 0 {
      res, clst := StretchFile(fp, 0, 0);
      if res != Ok { return; }
    }
    none := clst == 0;
    Reclust(fp.V(), fp.F(), clst);
    fp.clust := clst;
  }

  lemma StartBelow(p: nat, i: nat, bcs: nat)
    requires bcs > 0 && p / bcs >= i
    ensures i * bcs <= p
  {
    MulMono(i, p / bcs, bcs);
  }

  /** The end of the walk: p, r bytes into cluster i or at its end. */
  lemma TargetPlace(v: Vol, f: File, i: nat, r: nat, p: nat)
    requires Good(v, f) && i < |f.chain| && f.clust == f.chain[i]
    requires 1 <= r <= v.g.ClusterBytes() && p == i * v.g.ClusterBytes() + r
    ensures v.g.ss > 0 && v.g.nFatent >= 2 && Clust2Sect(v.g, f.clust) > 0
    ensures Reaches(v.g, f.chain, f.clust, p, if r % v.g.ss != 0 then Clust2Sect(v.g, f.clust) + r / v.g.ss else 0)
  {
    hide Good, Sec, Off, InnerIndex, ClusterIndex, SectorOf, SectorCount, Clust2Sect;
    TargetCluster(v, f, i);
    ClusterEnd(v.g, i, r);
    ChainBytes(v.g, f.chain, i);
    assert p <= |f.chain| * v.g.ClusterBytes();
    if r % v.g.ss != 0 { TargetSector(v.g, f.chain, i, r, Sec(v.g, p)); }
  }

  lemma ChainBytes(g: Geo, chain: seq<nat>, i: nat)
    requires i < |chain|
    ensures i * g.ClusterBytes() + g.ClusterBytes() <= |chain| * g.ClusterBytes() == SectorCount(g, chain) * g.ss
  {
    Arithmetic();
    hide Times, Quotient, Remainder;
    MulMono(i + 1, |chain|, g.ClusterBytes());
    assert (i + 1) * g.ClusterBytes() == i * g.ClusterBytes() + g.ClusterBytes();
    assert |chain| * (g.csize * g.ss) == |chain| * g.csize * g.ss;
  }

  lemma TargetCluster(v: Vol, f: File, i: nat)
    requires Good(v, f) && i < |f.chain|
    ensures ValidSectorSize(v.g.ss) && v.g.csize > 0 && v.g.nFatent >= 2
    ensures v.g.ValidCluster(f.chain[i])
    ensures Clust2Sect(v.g, f.chain[i]) > 0 && Clust2Sect(v.g, f.chain[i]) == ClusterBase(v.g, f.chain[i])
  {
    Arithmetic();
    hide Times, Quotient, Remainder;
    hide Good, Geo.Sound, Shaped, Content;
    FileFacts(v, f);
    Bounds(v.g);
    ClusterSectors(v.g, f.chain[i]);
  }

  lemma TargetSector(g: Geo, chain: seq<nat>, i: nat, r: nat, k: nat)
    requires g.ss > 0 && g.csize > 0 && r / g.ss < g.csize && i < |chain|
    requires k == i * g.csize + r / g.ss && ClusterIndex(g, k) == i && InnerIndex(g, k) == r / g.ss
    ensures k < SectorCount(g, chain) && SectorOf(g, chain, k) == ClusterBase(g, chain[i]) + r / g.ss
  {
    hide InnerIndex, ClusterIndex;
    BoundarySector(g, chain, k);
  }

  /** Follow the chain to the target; short is set if the volume ran out of clusters, and
      pos is then the end of the last cluster. */
  method LocateTarget(fp: Fil, target: nat, ifptr: nat) returns (res: FResult, pos: nat, nsect: nat, ghost short: bool)
    requires fp.Open() && 0 < target < TWO32 && fp.fptr == 0
    requires ifptr < TWO32 && (ifptr > 0 ==> Holds(fp.fs.geo, fp.chain, fp.clust, Sec(fp.fs.geo, ifptr - 1)))
    requires !fp.canWrite ==> target <= fp.objsize
    modifies fp`clust, fp`chain, fp`sclust
    modifies fp.fs`wflag, fp.fs`winsect, fp.fs`marks, fp.fs`log, fp.fs`fats, fp.fs`lastClst, fp.fs`freeClst, fp.fs`fsiDirty, fp.fs.win, fp.fs.disk
    ensures StaysSafe(fp.fs, res != DiskErr)
    ensures fp.Intact() && fp.fs.Grows()
    ensures res == Ok || (res == DiskErr && fp.fs.disk.mayFail)
    ensures res == Ok ==> fp.Open() && fp.Data() == old(fp.Data()) && Others(old(fp.V()), old(fp.chain), fp.V(), fp.chain)
    ensures res == Ok ==> Reaches(fp.fs.geo, fp.chain, fp.clust, pos, nsect)
    ensures res == Ok ==> pos == if short then |fp.chain| * fp.fs.geo.ClusterBytes() else target
    ensures res == Ok && short ==> NoneFree(fp.fs.Fat()) && fp.canWrite && fp.objsize <= pos < target
    ensures old(fp.chain) <= fp.chain
  {
    hide AllWellFormed, TornLast;
    hide FatFs.Ready, FatFs.Journaled, Traced, FatOf, Good, Content, Sec, Off, FatFs.Img, MapPrefix, SectorOf, SectorCount, ClusterIndex, Others, NoneFree, Holds, Clust2Sect, Reaches;
    ghost var v0, c0 := fp.V(), fp.chain;
    InsideBytes(fp.V(), fp.F());
    pos, nsect, short := 0, 0, false;
    var base, rem, none;
    ghost var i;
    res, base, rem, none, i := StartSeek(fp, target, ifptr);
    if res != Ok { return; }
    if none {
      short := true;
      AtStart(fp.V(), fp.F());
      return;
    }
    ghost var v1, c1 := fp.V(), fp.chain;
    res, pos, nsect, short := WalkTo(fp, base, rem, i);
    OthersTrans3(v0, c0, v1, c1, fp.V(), fp.chain, res == Ok);
    if res == Ok { InsideBytes(fp.V(), fp.F()); }
  }

  /** The walk and the sector of the position it ends at. */
  method WalkTo(fp: Fil, base0: nat, rem: nat, ghost i0: nat) returns (res: FResult, pos: nat, nsect: nat, ghost short: bool)
    requires fp.Open() && i0 < |fp.chain| && fp.clust == fp.chain[i0]
    requires rem > 0 && base0 == i0 * fp.fs.geo.ClusterBytes()
    requires !fp.canWrite ==> base0 + rem <= |fp.chain| * fp.fs.geo.ClusterBytes()
    modifies fp`clust, fp`chain, fp`sclust
    modifies fp.fs`wflag, fp.fs`winsect, fp.fs`marks, fp.fs`log, fp.fs`fats, fp.fs`lastClst, fp.fs`freeClst, fp.fs`fsiDirty, fp.fs.win, fp.fs.disk
    ensures StaysSafe(fp.fs, res != DiskErr)
    ensures fp.Intact() && fp.fs.Grows()
    ensures res == Ok || (res == DiskErr && fp.fs.disk.mayFail)
    ensures res == Ok ==> fp.Open() && fp.Data() == old(fp.Data()) && Others(old(fp.V()), old(fp.chain), fp.V(), fp.chain)
    ensures res == Ok ==> Reaches(fp.fs.geo, fp.chain, fp.clust, pos, nsect)
    ensures res == Ok ==> pos == if short then |fp.chain| * fp.fs.geo.ClusterBytes() else base0 + rem
    ensures res == Ok && short ==> NoneFree(fp.fs.Fat()) && fp.canWrite && pos < base0 + rem
    ensures old(fp.chain) <= fp.chain
  {
    hide AllWellFormed, TornLast;
    hide FatFs.Ready, FatFs.Journaled, Traced, FatOf, Good, Content, Sec, Off, FatFs.Img, MapPrefix, SectorOf, SectorCount, ClusterIndex, Others, NoneFree, Holds, Clust2Sect, Reaches;
    hide Geo.ClusterBytes;
    pos, nsect, short := 0, 0, false;
    var base, ofs, full;
    ghost var i;
    res, base, ofs, full, i := WalkChain(fp, base0, rem, i0);
    if res != Ok { return; }
    short := full;
    if full {
      AtEnd(fp.V(), fp.F(), i, base);
      pos := base;
    } else {
      pos := base + ofs;
      TargetPlace(fp.V(), fp.F(), i, ofs, pos);
      if ofs % fp.fs.geo.ss != 0 {
        nsect := Clust2Sect(fp.fs.geo, fp.clust);
        if nsect == 0 { return IntErr, pos, nsect, short; }
        nsect := nsect + ofs / fp.fs.geo.ss;
      }
    }
  }

  lemma AtStart(v: Vol, f: File)
    requires Good(v, f) && f.chain == []
    ensures Reaches(v.g, f.chain, f.clust, 0, 0) && |f.chain| * v.g.ClusterBytes() == 0
  {
    GeoFacts(v, f);
  }

  lemma AtEnd(v: Vol, f: File, i: nat, p: nat)
    requires Good(v, f) && i + 1 == |f.chain| && f.clust == f.chain[i]
    requires p == i * v.g.ClusterBytes() + v.g.ClusterBytes()
    ensures Reaches(v.g, f.chain, f.clust, p, 0) && |f.chain| * v.g.ClusterBytes() == p
  {
    Arithmetic();
    hide Times, Quotient, Remainder;
    hide Good, Reaches, Clust2Sect;
    GeoFacts(v, f);
    MulAtLeast(v.g.csize, v.g.ss);
    TargetPlace(v, f, i, v.g.ClusterBytes(), p);
    WholeSectors(v.g.csize, v.g.ss);
    assert (i + 1) * v.g.ClusterBytes() == p;
  }

  lemma WholeSectors(n: nat, ss: nat)
    requires ss > 0
    ensures n * ss % ss == 0
  {
    DivUnique(n * ss, ss, n, 0);
  }

  /** A file inside its clusters: with a size there is a cluster. */
  lemma InsideBytes(v: Vol, f: File)
    requires Good(v, f)
    ensures f.objsize <= |f.chain| * v.g.ClusterBytes() && (f.objsize > 0 ==> f.chain != [])
  {
    hide GoodVol, Buffered, Clean, Times;
    assert f.objsize <= Times(Times(|f.chain|, v.g.csize), v.g.ss);
    hide Good;
    Regroup(|f.chain|, v.g.csize, v.g.ss);
  }

  lemma {:induction false} Regroup(n: nat, c: nat, ss: nat)
    ensures Times(Times(n, c), ss) == n * Times(c, ss)
    ensures n == 0 ==> n * Times(c, ss) == 0
  {
    if n > 0 {
      Regroup(n - 1, c, ss);
      TimesSum(c, Times(n - 1, c), ss);
    }
  }

  lemma {:induction false} TimesSum(a: nat, b: nat, c: nat)
    ensures Times(a + b, c) == Times(a, c) + Times(b, c)
  {
    if a > 0 { TimesSum(a - 1, b, c); }
  }

  /** The end of `f_lseek`: extend the size, buffer the target's sector, set the pointer. */
  method FinishSeek(fp: Fil, pos: nat, nsect: nat) returns (res: FResult)
    requires fp.Open() && fp.fptr == 0 && pos < TWO32 && Reaches(fp.fs.geo, fp.chain, fp.clust, pos, nsect)
    modifies fp`objsize, fp`modified, fp`dirty, fp`sect, fp`bix, fp`fptr, fp.buf, fp.fs`marks, fp.fs`bypass, fp.fs.disk
    ensures fp.Intact() && fp.fs.Grows()
    ensures res == Ok || (res == DiskErr && fp.fs.disk.mayFail)
    ensures res == Ok ==> fp.Open() && Placed(fp.fs.geo, fp.F()) && fp.fptr == pos && fp.fs.Fat() == old(fp.fs.Fat())
    ensures res == Ok ==> old(fp.Data()) <= fp.Data() && |fp.Data()| == if pos > |old(fp.Data())| then pos else |old(fp.Data())|
    ensures res == Ok ==> fp.modified == (old(fp.modified) || pos > |old(fp.Data())|)
    ensures res == Ok ==> Others(old(fp.V()), fp.chain, fp.V(), fp.chain)
  {
    hide FatFs.Ready, FatFs.Journaled, Traced, FatOf, Good, Content, Sec, Off, FatFs.Img, MapPrefix, SectorOf, SectorCount, ClusterIndex, Others, NoneFree;
    res := Ok;
    ghost var v, f := fp.V(), fp.F();
    BufFacts(v, f);
    OthersSame(v, fp.chain, v);
    if pos > fp.objsize { Extend(fp, pos); }
    res := LoadTarget(fp, pos, nsect);
    if res != Ok { return; }
    SetPointer(fp.V(), fp.F(), pos);
    hide Placed;
    fp.fptr := pos;
  }

  /** The size follows the pointer past the end. */
  method Extend(fp: Fil, pos: nat)
    requires fp.Open() && fp.objsize < pos < TWO32 && pos <= SectorCount(fp.fs.geo, fp.chain) * fp.fs.geo.ss
    modifies fp`objsize, fp`modified
    ensures fp.Open() && fp.objsize == pos && fp.modified
    ensures old(fp.Data()) <= fp.Data() && |fp.Data()| == pos
  {
    hide FatFs.Ready, FatFs.Journaled, Traced, FatOf, Good, Content, FatFs.Img, MapPrefix, SectorCount;
    ghost var v, f := fp.V(), fp.F();
    BufFacts(v, f);
    ExtendSize(v, f, pos);
    fp.objsize := pos;
    fp.modified := true;
    assert fp.F() == f.(objsize := pos);
  }

  /** `f_lseek` without a link map. Inside the file the pointer goes to the target and the
      bytes stay. Past the end, a file open for reading alone keeps its bytes and the pointer
      stops at the size; a writable file is extended to the target, or to the end of its
      clusters if the volume is full, with bytes the engine leaves unspecified. */
  method NormalSeek(fp: Fil, target: nat) returns (res: FResult)
    requires fp.Open() && Placed(fp.fs.geo, fp.F()) && target < TWO32
    modifies fp`objsize, fp`modified, fp`dirty, fp`sect, fp`bix, fp`fptr, fp.buf, fp`clust, fp`chain, fp`sclust
    modifies fp.fs`wflag, fp.fs`winsect, fp.fs`marks, fp.fs`bypass, fp.fs`log, fp.fs`fats, fp.fs`lastClst, fp.fs`freeClst, fp.fs`fsiDirty, fp.fs.win, fp.fs.disk
    ensures StaysSafe(fp.fs, res != DiskErr)
    ensures fp.Intact() && fp.fs.Grows()
    ensures res == Ok || (res == DiskErr && fp.fs.disk.mayFail)
    ensures res == Ok ==> fp.Open() && Placed(fp.fs.geo, fp.F())
    ensures res == Ok && target <= |old(fp.Data())| ==> fp.fptr == target && fp.Data() == old(fp.Data())
    ensures res == Ok && target > |old(fp.Data())| && !fp.canWrite ==> fp.fptr == |old(fp.Data())| && fp.Data() == old(fp.Data())
    ensures res == Ok && target > |old(fp.Data())| && fp.canWrite ==>
      && (fp.fptr == target || StoppedShort(fp, target))
      && |old(fp.Data())| <= fp.fptr == |fp.Data()| && old(fp.Data()) <= fp.Data()
    ensures res == Ok ==> fp.modified == (old(fp.modified) || |fp.Data()| > |old(fp.Data())|)
    ensures res == Ok ==> Others(old(fp.V()), old(fp.chain), fp.V(), fp.chain)
    ensures old(fp.chain) <= fp.chain
  {
    hide AllWellFormed, TornLast;
    hide FatFs.Ready, FatFs.Journaled, Traced, FatOf, Good, Content, Sec, Off, FatFs.Img, MapPrefix, SectorOf, SectorCount, ClusterIndex, Others, NoneFree, Reaches;
    BufFacts(fp.V(), fp.F());
    GeoFacts(fp.V(), fp.F());
    FirstOffset(fp.fs.geo);
    SetPointer(fp.V(), fp.F(), 0);
    ghost var whole := fp.Data();
    var ofs := target;
    if ofs > fp.objsize && !fp.canWrite { ofs := fp.objsize; }
    var ifptr := fp.fptr;
    fp.fptr := 0;
    res := SeekFrom(fp, ofs, ifptr);
    if res == Ok && ofs <= |whole| { SamePrefix(whole, fp.Data()); }
  }

  lemma SamePrefix(a: seq<byte>, b: seq<byte>)
    requires a <= b && |a| == |b|
    ensures a == b
  {
  }

  /** The walk to the target, started with the pointer taken back, and the end of the call. */
  method SeekFrom(fp: Fil, ofs: nat, ifptr: nat) returns (res: FResult)
    requires fp.Open() && fp.fptr == 0 && ofs < TWO32 && (!fp.canWrite ==> ofs <= fp.objsize)
    requires ifptr < TWO32 && (ifptr > 0 ==> Holds(fp.fs.geo, fp.chain, fp.clust, Sec(fp.fs.geo, ifptr - 1)))
    modifies fp`objsize, fp`modified, fp`dirty, fp`sect, fp`bix, fp`fptr, fp.buf, fp`clust, fp`chain, fp`sclust
    modifies fp.fs`wflag, fp.fs`winsect, fp.fs`marks, fp.fs`bypass, fp.fs`log, fp.fs`fats, fp.fs`lastClst, fp.fs`freeClst, fp.fs`fsiDirty, fp.fs.win, fp.fs.disk
    ensures StaysSafe(fp.fs, res != DiskErr)
    ensures fp.Intact() && fp.fs.Grows()
    ensures res == Ok || (res == DiskErr && fp.fs.disk.mayFail)
    ensures res == Ok ==> fp.Open() && Placed(fp.fs.geo, fp.F())
    ensures res == Ok ==> fp.fptr == ofs || (StoppedShort(fp, ofs) && |old(fp.Data())| <= fp.fptr)
    ensures res == Ok ==> old(fp.Data()) <= fp.Data() && |fp.Data()| == if fp.fptr > |old(fp.Data())| then fp.fptr else |old(fp.Data())|
    ensures res == Ok ==> fp.modified == (old(fp.modified) || fp.fptr > |old(fp.Data())|)
    ensures res == Ok ==> Others(old(fp.V()), old(fp.chain), fp.V(), fp.chain)
    ensures old(fp.chain) <= fp.chain
  {
    hide AllWellFormed, TornLast;
    hide FatFs.Ready, FatFs.Journaled, Traced, FatOf, Good, Content, Sec, Off, FatFs.Img, MapPrefix, SectorOf, SectorCount, ClusterIndex, Others, NoneFree, Reaches, Holds;
    ghost var v0, c0 := fp.V(), fp.chain;
    BufFacts(fp.V(), fp.F());
    OthersSame(v0, c0, v0);
    var pos, nsect := 0, 0;
    ghost var short := false;
    res := Ok;
    if ofs > 0 {
      res, pos, nsect, short := LocateTarget(fp, ofs, ifptr);
      if res != Ok { return; }
    } else {
      ReachesStart(fp.V(), fp.F());
    }
    ghost var v1 := fp.V();
    res := FinishSeek(fp, pos, nsect);
    OthersTrans3(v0, c0, v1, fp.chain, fp.V(), fp.chain, res == Ok);
  }

  lemma ReachesStart(v: Vol, f: File)
    requires Good(v, f)
    ensures Reaches(v.g, f.chain, f.clust, 0, 0)
  {
    GeoFacts(v, f);
    FirstOffset(v.g);
    MulMono(0, SectorCount(v.g, f.chain), v.g.ss);
    hide Good, SectorCount, Off;
  }

  /** The volume is full and the pointer stands at the end of the last cluster. */
  ghost predicate StoppedShort(fp: Fil, target: nat)
    reads fp`fptr, fp`chain, fp.fs`wflag, fp.fs`winsect, fp.fs.win, fp.fs.disk
  {
    fp.canWrite && NoneFree(fp.fs.Fat()) && fp.fptr == |fp.chain| * fp.fs.geo.ClusterBytes() < target
  }
}
