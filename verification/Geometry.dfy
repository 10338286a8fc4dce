/** The mounted volume's layout: where the FATs, the root directory and the clusters lie. */
module Geometry {
  import opened Arith

  datatype FsType = Fat12 | Fat16 | Fat32

  const MAX_FAT12: nat := 0xFF5
  const MAX_FAT16: nat := 0xFFF5
  const MAX_FAT32: nat := 0x0FFF_FFF5

  const MAX_DIR: nat := 0x20_0000
  const SZDIRE: nat := 32

  predicate ValidSectorSize(ss: nat)
  {
    ss == 512 || ss == 1024 || ss == 2048 || ss == 4096
  }

  /** The layout fields of `FATFS`, fixed when the volume is mounted. */
  datatype Geo = Geo(
    fsType: FsType,
    nFats: nat,    // number of FATs
    csize: nat,    // sectors per cluster
    ss: nat,       // bytes per sector
    nRootdir: nat, // root directory entries (FAT12/16)
    nFatent: nat,  // number of clusters + 2
    fsize: nat,    // sectors per FAT
    volbase: nat,
    fatbase: nat,
    dirbase: nat,  // root directory sector (FAT12/16) or cluster (FAT32)
    database: nat
  ) {
    /** What every layer above mounting relies on. */
    predicate Sound()
    {
      && ValidSectorSize(ss)
      && IsPow2(csize) && csize <= 128
      && (nFats == 1 || nFats == 2)
      && 3 <= nFatent
      && nFatent - 2 <= MaxClusters()
      && FatBytes() <= Times(fsize, ss)
      && volbase < fatbase
      && fatbase + Times(nFats, fsize) + RootSectors() == database
      && Remainder(nRootdir, Quotient(ss, SZDIRE)) == 0
      && (fsType == Fat32 <==> nRootdir == 0)
      && (fsType != Fat32 ==> dirbase == fatbase + Times(nFats, fsize))
      && End() < TWO32
    }

    function MaxClusters(): nat
    {
      match fsType
      case Fat12 => MAX_FAT12
      case Fat16 => MAX_FAT16
      case Fat32 => MAX_FAT32
    }

    /** Number of FAT bytes that hold entries 0 .. nFatent - 1. */
    function FatBytes(): nat
    {
      match fsType
      case Fat12 => nFatent + (nFatent + 1) / 2
      case Fat16 => nFatent * 2
      case Fat32 => nFatent * 4
    }

    function RootSectors(): nat
      requires ValidSectorSize(ss)
    {
      Quotient(nRootdir, Quotient(ss, SZDIRE))
    }

    /** One past the last data sector. */
    function End(): nat
    {
      database + Times(if nFatent >= 2 then nFatent - 2 else 0, csize)
    }

    function ClusterBytes(): nat
    {
      Times(csize, ss)
    }

    predicate ValidCluster(c: nat)
    {
      2 <= c < nFatent
    }

    /** A sector of the first FAT. */
    predicate InFat(s: nat)
    {
      fatbase <= s < fatbase + fsize
    }

    /** Sectors the engine writes but never reads back once mounted: the FAT copy
        and the FSINFO record. */
    predicate Shadow(s: nat)
    {
      || (fatbase + fsize <= s < fatbase + Times(nFats, fsize))
      || (fsType == Fat32 && s == volbase + 1)
    }

    /** The FSINFO record does not share a sector with the FAT. */
    predicate FsInfoApart()
    {
      fsType == Fat32 ==> volbase + 1 < fatbase
    }

    predicate InCluster(s: nat, c: nat)
      requires 2 <= c
    {
      database + Times(c - 2, csize) <= s < database + Times(c - 2, csize) + csize
    }
  }

  /** The linear facts of a sound layout. */
  lemma Bounds(g: Geo)
    requires g.Sound()
    ensures g.nFats == 1 || g.nFats == 2
    ensures g.nFats == 2 ==> g.nFats * g.fsize == g.fsize + g.fsize
    ensures g.volbase < g.fatbase
    ensures g.fatbase + g.nFats * g.fsize + g.RootSectors() == g.database <= g.End() < TWO32
    ensures g.fatbase + g.fsize <= g.database
    ensures 3 <= g.nFatent <= 0x0FFF_FFF7
    ensures 0 < g.csize <= 128 && ValidSectorSize(g.ss)
  {
    Arithmetic();
    hide Times, Quotient, Remainder;
    hide Geo.FatBytes, Geo.RootSectors;
    MulMono(0, g.nFatent - 2, g.csize);
    assert g.nFats == 1 ==> g.nFats * g.fsize == g.fsize;
    assert g.nFats == 2 ==> g.nFats * g.fsize == g.fsize + g.fsize;
  }

  /** `sector - fatbase < fsize` on DWORDs recognises the sectors of the first FAT. */
  lemma FatTest(g: Geo, s: nat)
    requires g.Sound() && s < TWO32
    ensures U32(s - g.fatbase) < g.fsize <==> g.InFat(s)
  {
    hide Geo.Sound;
    Bounds(g);
  }

  /** `clust2sect`: 0 marks an invalid cluster number. */
  function Clust2Sect(g: Geo, clst: nat): nat
    requires g.nFatent >= 2
  {
    var c := U32(clst - 2);
    if c >= g.nFatent - 2 then 0 else U32(Times(c, g.csize) + g.database)
  }

  /** Every valid cluster has its own run of csize sectors inside the data area. */
  lemma ClusterSectors(g: Geo, c: nat)
    requires g.Sound() && c < TWO32
    ensures Clust2Sect(g, c) != 0 <==> g.ValidCluster(c)
    ensures g.ValidCluster(c) ==>
      && Clust2Sect(g, c) == g.database + (c - 2) * g.csize
      && g.database <= Clust2Sect(g, c)
      && Clust2Sect(g, c) + g.csize <= g.End()
  {
    Arithmetic();
    hide Times, Quotient, Remainder;
    if g.ValidCluster(c) {
      ClusterOffset(c - 2, g.nFatent - 2, g.csize);
    }
  }

  lemma ClusterOffset(k: nat, n: nat, csize: nat)
    requires k < n
    ensures 0 <= k * csize && k * csize + csize <= n * csize
  {
    MulMono(k + 1, n, csize);
    assert (k + 1) * csize == k * csize + csize;
  }

  lemma ClustersDisjoint(g: Geo, c: nat, d: nat, s: nat)
    requires 2 <= c && 2 <= d && c != d
    ensures !(g.InCluster(s, c) && g.InCluster(s, d))
  {
    Arithmetic();
    hide Times, Quotient, Remainder;
    if c < d { MulMono(c - 1, d - 2, g.csize); assert (c - 1) * g.csize == (c - 2) * g.csize + g.csize; }
    if d < c { MulMono(d - 1, c - 2, g.csize); assert (d - 1) * g.csize == (d - 2) * g.csize + g.csize; }
  }

  /** No data sector is a FAT sector or a shadow sector. */
  lemma DataApart(g: Geo, s: nat)
    requires g.Sound() && s >= g.database
    ensures !g.InFat(s) && !g.Shadow(s)
  {
  }
}
