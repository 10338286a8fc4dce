/** Open files: `f_read`, `f_write` and `f_lseek` over the volume object. */
module Files {
  import opened Allocator
  import opened Arith
  import opened Bytes
  import opened Chains
  import opened ChainEdits
  import opened FatEntries
  import opened FatTable
  import opened FileBytes
  import opened FileLayout
  import opened FileModel
  import opened Geometry
  import opened LinkMap
  import opened Media
  import opened Window

  function Prefix(s: seq<byte>, n: nat): seq<byte>
  {
    if n <= |s| then s[..n] else s
  }

  /** `FIL` */
  class Fil {
    const fs: FatFs
    const buf: array<byte>
    const canRead: bool  // FA_READ
    const canWrite: bool // FA_WRITE

    var modified: bool   // FA_MODIFIED
    var dirty: bool      // FA_DIRTY
    var err: FResult
    var sclust: nat
    var objsize: nat
    var fptr: nat
    var clust: nat
    var sect: nat
    var cltbl: array?<nat>

    ghost var chain: seq<nat>
    ghost var bix: nat

    /** The end of `f_open`: start cluster and size come from the directory entry. */
    constructor (volume: FatFs, start: nat, size: nat, read: bool, write: bool, changed: bool, ghost clusters: seq<nat>)
      requires volume.Valid()
      requires start == if clusters == [] then 0 else clusters[0]
      requires GoodVol(Vol(volume.geo, volume.Img(), volume.winsect), clusters)
      requires Sized(volume.geo, clusters, size, 0)
      ensures Valid() && err == Ok && fs == volume && canRead == read && canWrite == write
      ensures chain == clusters && fptr == 0 && objsize == size && cltbl == null && modified == changed
      ensures volume.Valid() && volume.Img() == old(volume.Img())
      ensures Data() == Prefix(Flat(View(volume.geo, volume.Img(), clusters)), size)
      ensures fresh(buf)
    {
      hide GoodVol, FatOf, View, Flat, FatFs.Ready, FatFs.Journaled, Traced, FatFs.Img;
      fs, canRead, canWrite, modified, dirty := volume, read, write, changed, false;
      buf := new byte[volume.geo.ss](_ => 0);
      err, sclust, objsize, fptr, clust, sect := Ok, start, size, 0, 0, 0;
      cltbl := null;
      chain, bix := clusters, 0;
      new;
      FirstOffset(volume.geo);
      assert Good(V(), F());
      ContentShape(V(), F());
    }

    ghost function V(): Vol
      reads fs`wflag, fs`winsect, fs.win, fs.disk
    {
      Vol(fs.geo, fs.Img(), fs.winsect)
    }

    ghost function F(): File
      reads this`dirty, this`objsize, this`fptr, this`clust, this`sect, this`chain, this`bix, buf
    {
      File(chain, objsize, fptr, clust, sect, bix, dirty, buf[..])
    }

    /** The file as a byte sequence. */
    ghost function Data(): seq<byte>
      reads this`dirty, this`objsize, this`fptr, this`clust, this`sect, this`chain, this`bix, buf
      reads fs`wflag, fs`winsect, fs.win, fs.disk
    {
      Content(V(), F())
    }

    /** The link map, if one is attached, lists the first clusters of the chain. */
    ghost predicate Mapped()
      reads this`chain, this`cltbl, cltbl
    {
      cltbl != null ==> MapPrefix(cltbl[..], chain)
    }

    ghost predicate Intact()
      reads this`cltbl
      reads fs`wflag, fs`winsect, fs`log, fs`fats, fs`marks, fs`bypass, fs.win, fs.disk
    {
      && fs.Valid() && buf.Length == fs.geo.ss && buf != fs.win
      && (cltbl != null ==> cltbl as object != buf && cltbl as object != fs.win)
    }

    /** The file is in order, whatever the attached link map holds. */
    ghost predicate Sane()
      reads this`dirty, this`objsize, this`fptr, this`clust, this`sect, this`chain, this`bix, this`sclust, this`cltbl, buf
      reads fs`wflag, fs`winsect, fs`log, fs`fats, fs`marks, fs`bypass, fs.win, fs.disk
    {
      Intact() && sclust == (if chain == [] then 0 else chain[0]) && Good(V(), F())
    }

    ghost predicate Open()
      reads this`dirty, this`objsize, this`fptr, this`clust, this`sect, this`chain, this`bix, this`sclust, this`cltbl, cltbl, buf
      reads fs`wflag, fs`winsect, fs`log, fs`fats, fs`marks, fs`bypass, fs.win, fs.disk
    {
      Sane() && Mapped()
    }

    /** The state between calls; after an error nothing but the abort flag is relied on. */
    ghost predicate Valid()
      reads this, cltbl, buf
      reads fs`wflag, fs`winsect, fs`log, fs`fats, fs`marks, fs`bypass, fs.win, fs.disk
    {
      Intact() && (err == Ok ==> Open() && Placed(fs.geo, F()))
    }

    /** The link map covers the whole chain. */
    ghost predicate FullyMapped()
      reads this`chain, this`cltbl, cltbl
    {
      cltbl != null ==> MapExact(cltbl[..], chain)
    }

    /** A link map is attached, and the cluster of byte p is not in it. */
    ghost predicate BeyondMap(p: nat)
      reads this`cltbl, cltbl
    {
      cltbl != null && Terminated(cltbl[..], 1) && ClusterIndex(fs.geo, Sec(fs.geo, p)) >= |Decode(cltbl[..], 1)|
    }
  }

  lemma FirstOffset(g: Geo)
    ensures Off(g, 0) == 0
  {
  }

  lemma FileFacts(v: Vol, f: File)
    requires Good(v, f)
    ensures v.g.Sound() && ValidSectorSize(v.g.ss) && 0 < v.g.csize <= 128 && IsPow2(v.g.csize)
    ensures v.g.ss > 0 && v.g.End() <= |v.img| && Clusters(v.g, f.chain) && Shaped(v.g, v.img)
    ensures |f.buf| == v.g.ss && f.fptr <= f.objsize < TWO32 && (f.dirty ==> f.sect != 0)
    ensures |Content(v, f)| == f.objsize
  {
    GoodClusters(v, f.chain);
    hide GoodVol;
    ContentShape(v, f);
  }

  lemma GeoFacts(v: Vol, f: File)
    requires Good(v, f)
    ensures ValidSectorSize(v.g.ss) && v.g.ss > 0 && 0 < v.g.csize <= 128 && IsPow2(v.g.csize)
    ensures f.fptr <= f.objsize < TWO32 && v.g.nFatent < 0x0FFF_FFF8
  {
    FileFacts(v, f);
    Bounds(v.g);
  }

  lemma BufFacts(v: Vol, f: File)
    requires Good(v, f)
    ensures |f.buf| == v.g.ss && |Content(v, f)| == f.objsize && f.fptr <= f.objsize
  {
    FileFacts(v, f);
  }

  /** Which cluster is current does not affect what the file holds. */
  lemma Reclust(v: Vol, f: File, c: nat)
    requires Good(v, f)
    ensures Good(v, f.(clust := c)) && Content(v, f.(clust := c)) == Content(v, f)
  {
    hide GoodVol, View, Flat, Sized;
  }

  lemma VolMoved(v: Vol, f: File, w: nat)
    requires Good(v, f)
    requires w == v.winsect || w == NO_SECTOR || v.g.InFat(w)
    ensures Good(v.(winsect := w), f) && Content(v.(winsect := w), f) == Content(v, f)
  {
    assert v.g.Sound() by { GoodClusters(v, f.chain); }
    hide WindowApart, WellFormed, IsChain, Shaped, FatOf, View, Flat, SectorOf;
    WindowMoves(v.g, FatOf(v.g, v.img), f.chain, v.winsect, w);
  }

  /** What the FAT says about the current cluster. */
  lemma NextCluster(v: Vol, f: File, i: nat)
    requires Good(v, f) && i < |f.chain|
    ensures v.g.ValidCluster(f.chain[i])
    ensures i + 1 < |f.chain| ==> FatOf(v.g, v.img)[f.chain[i]] == f.chain[i + 1] && v.g.ValidCluster(f.chain[i + 1])
    ensures i + 1 == |f.chain| ==> FatOf(v.g, v.img)[f.chain[i]] >= v.g.nFatent
    ensures FatOf(v.g, v.img)[f.chain[i]] >= 2
  {
    hide Shaped, WellFormed, FatOf;
    ChainStep(FatOf(v.g, v.img), f.chain, i);
    assert v.g.Sound() by { GoodClusters(v, f.chain); }
    Bounds(v.g);
  }

  /** The cluster index of a byte inside the file is inside the chain. */
  lemma InsideChain(v: Vol, f: File)
    requires Good(v, f) && f.fptr < f.objsize
    ensures Sec(v.g, f.fptr) < SectorCount(v.g, f.chain)
    ensures ClusterIndex(v.g, Sec(v.g, f.fptr)) < |f.chain|
  {
    Arithmetic();
    hide Times, Quotient, Remainder;
    GoodClusters(v, f.chain);
    hide GoodVol;
    DivBelow(f.fptr, SectorCount(v.g, f.chain), v.g.ss);
    DivBelow(Sec(v.g, f.fptr), |f.chain|, v.g.csize);
  }

  /** The cluster that follows the current one, from the link map or from the FAT. */
  method NextForRead(fp: Fil) returns (clst: nat)
    requires fp.Open() && Placed(fp.fs.geo, fp.F())
    requires Off(fp.fs.geo, fp.fptr) == 0 && InnerIndex(fp.fs.geo, Sec(fp.fs.geo, fp.fptr)) == 0 && fp.fptr < fp.objsize
    modifies fp.fs`wflag, fp.fs`winsect, fp.fs`marks, fp.fs.win, fp.fs.disk
    ensures fp.Open() && fp.Data() == old(fp.Data()) && fp.fs.Img() == old(fp.fs.Img())
    ensures ClusterIndex(fp.fs.geo, Sec(fp.fs.geo, fp.fptr)) < |fp.chain|
    ensures fp.fs.geo.ValidCluster(fp.chain[ClusterIndex(fp.fs.geo, Sec(fp.fs.geo, fp.fptr))])
    ensures clst == DISK_ERROR ==> fp.fs.disk.mayFail
    ensures clst != DISK_ERROR ==>
      clst == fp.chain[ClusterIndex(fp.fs.geo, Sec(fp.fs.geo, fp.fptr))] || (clst == 0 && !fp.FullyMapped())
    ensures fp.fs.Grows()
  {
    hide FatFs.Ready, FatFs.Journaled, Traced, FatOf, Good, Content, Sec, Off, InnerIndex, ClusterIndex, FatFs.Img, MapPrefix;
    ghost var v, f := fp.V(), fp.F();
    GeoFacts(v, f);
    NextIs(v, f);
    hide Fil.FullyMapped;
    if fp.fptr == 0 {
      clst := fp.sclust;
    } else if fp.cltbl != null {
      clst := MappedCluster(fp, fp.fptr);
    } else {
      clst := GetFat(fp.fs, fp.clust);
      VolMoved(v, f, fp.fs.winsect);
    }
  }

  /** Where the cluster at the pointer is found, at a cluster boundary inside the file. */
  lemma NextIs(v: Vol, f: File)
    requires Good(v, f) && Placed(v.g, f) && Off(v.g, f.fptr) == 0 && InnerIndex(v.g, Sec(v.g, f.fptr)) == 0 && f.fptr < f.objsize
    ensures var q := ClusterIndex(v.g, Sec(v.g, f.fptr));
      && q < |f.chain| && v.g.ValidCluster(f.chain[q])
      && (f.fptr == 0 ==> q == 0)
      && (f.fptr > 0 ==> v.g.ValidCluster(f.clust) && FatOf(v.g, v.img)[f.clust] == f.chain[q])
  {
    hide Good, FatOf, Sec, Off, InnerIndex, ClusterIndex, SectorCount;
    GeoFacts(v, f);
    InsideChain(v, f);
    var q := ClusterIndex(v.g, Sec(v.g, f.fptr));
    NextCluster(v, f, q);
    if f.fptr == 0 {
      FirstPos(v.g);
    } else {
      SameCluster(v.g, f);
      NextCluster(v, f, q - 1);
    }
  }

  /** `clmt_clust(fp, ofs)` */
  method MappedCluster(fp: Fil, ofs: nat) returns (clst: nat)
    requires fp.Open() && fp.cltbl != null && fp.fs.geo.ss > 0 && fp.fs.geo.csize > 0
    ensures var q := ClusterIndex(fp.fs.geo, Sec(fp.fs.geo, ofs));
      || (q < |fp.chain| && clst == fp.chain[q])
      || (clst == 0 && fp.BeyondMap(ofs) && (q >= |fp.chain| || !fp.FullyMapped()))
  {
    hide Good, FatFs.Ready, FatFs.Journaled, Traced, FatOf, FatFs.Img, ClusterIndex, Sec, Terminated, Decode;
    MapIndex(fp.fs.geo, ofs);
    clst := ClmtClust(fp.cltbl, fp.fs.geo.ss, fp.fs.geo.csize, ofs);
  }

  lemma MapIndex(g: Geo, p: nat)
    requires g.ss > 0 && g.csize > 0
    ensures p / g.ss / g.csize == ClusterIndex(g, Sec(g, p))
  {
    Arithmetic();
    hide Times, Quotient, Remainder;
  }

  /** `f_read` at a cluster boundary: the cluster that holds the pointer becomes current. */
  method EnterForRead(fp: Fil) returns (res: FResult)
    requires fp.Open() && Placed(fp.fs.geo, fp.F())
    requires Off(fp.fs.geo, fp.fptr) == 0 && InnerIndex(fp.fs.geo, Sec(fp.fs.geo, fp.fptr)) == 0 && fp.fptr < fp.objsize
    modifies fp`clust, fp.fs`wflag, fp.fs`winsect, fp.fs`marks, fp.fs.win, fp.fs.disk
    ensures fp.Open() && fp.Data() == old(fp.Data()) && fp.fs.Img() == old(fp.fs.Img())
    ensures res == Ok || (res == DiskErr && fp.fs.disk.mayFail) || (res == IntErr && !fp.FullyMapped())
    ensures res == Ok ==> Holds(fp.fs.geo, fp.chain, fp.clust, Sec(fp.fs.geo, fp.fptr))
    ensures fp.fs.Grows()
  {
    hide FatFs.Ready, FatFs.Journaled, Traced, FatOf, Good, Content, Sec, Off, InnerIndex, ClusterIndex, FatFs.Img, MapPrefix, Fil.FullyMapped;
    var clst := NextForRead(fp);
    res := Ok;
    if clst < 2 { return IntErr; }
    if clst == DISK_ERROR { return DiskErr; }
    Reclust(fp.V(), fp.F(), clst);
    fp.clust := clst;
  }

  lemma FirstPos(g: Geo)
    ensures ClusterIndex(g, Sec(g, 0)) == 0
  {
  }

  /** A run of the file's sectors inside one cluster lies in the data area and clear of
      the window. */
  lemma RunPlace(v: Vol, f: File, k: nat, n: nat)
    requires Good(v, f) && k < SectorCount(v.g, f.chain) && n > 0 && InnerIndex(v.g, k) + n <= v.g.csize
    ensures k + n <= SectorCount(v.g, f.chain)
    ensures v.g.database <= SectorOf(v.g, f.chain, k) && SectorOf(v.g, f.chain, k) + n <= v.g.End() <= |v.img|
    ensures SectorOf(v.g, f.chain, k) > 0
    ensures !(SectorOf(v.g, f.chain, k) <= v.winsect < SectorOf(v.g, f.chain, k) + n)
  {
    FileFacts(v, f);
    SectorPlace(v.g, f.chain, k);
    SectorRun(v.g, f.chain, k, n);
    hide SectorOf, InnerIndex, ClusterIndex, Geo.Sound, Shaped, FatOf, WellFormed, IsChain;
    var s := SectorOf(v.g, f.chain, k);
    if s <= v.winsect < s + n {
      var i := k + (v.winsect - s);
      assert SectorOf(v.g, f.chain, i) == v.winsect;
      SectorPlace(v.g, f.chain, i);
    }
  }

  /** A single file sector. */
  lemma OnePlace(v: Vol, f: File, k: nat)
    requires Good(v, f) && k < SectorCount(v.g, f.chain)
    ensures v.g.database <= SectorOf(v.g, f.chain, k) < v.g.End() <= |v.img|
    ensures SectorOf(v.g, f.chain, k) != v.winsect && SectorOf(v.g, f.chain, k) > 0
  {
    FileFacts(v, f);
    hide Good;
    IndexSplit(v.g, k);
    RunPlace(v, f, k, 1);
  }

  lemma ChopOne(d: seq<byte>, img: Image, s: nat)
    requires s < |img|
    ensures |d| == 1 * |d| && img[..s] + Chop(d, 1, |d|) + img[s + 1..] == img[s := d]
  {
    hide Chop;
    ChopStep(d, 1, |d|);
    assert d[..|d|] == d;
  }

  lemma FlushOthers(v: Vol, f: File)
    requires Good(v, f) && f.dirty
    ensures f.sect < |v.img| && Others(v, f.chain, v.(img := v.img[f.sect := f.buf]), f.chain)
  {
    hide GoodVol, SectorOf, View, Others;
    FileFacts(v, f);
    SectorPlace(v.g, f.chain, f.bix);
    assert v.img[f.sect := f.buf] == Splice(v.img, f.sect, [f.buf]);
    IndexSplit(v.g, f.bix);
    OthersWrite(v, f.chain, f.bix, [f.buf]);
  }

  /** A dirty buffer is written back. */
  method FlushBuf(fp: Fil) returns (res: FResult)
    requires fp.Open()
    modifies fp`dirty, fp.fs`marks, fp.fs`bypass, fp.fs.disk
    ensures fp.Open() && fp.Data() == old(fp.Data())
    ensures res == Ok || (res == DiskErr && fp.fs.disk.mayFail)
    ensures fp.F() == old(fp.F()).(dirty := fp.dirty) && (res == Ok ==> !fp.dirty)
    ensures fp.fs.Fat() == old(fp.fs.Fat())
    ensures res == Ok && !old(fp.dirty) ==> fp.fs.Img() == old(fp.fs.Img())
    ensures fp.fs.Img() == old(fp.fs.Img())
      || (old(fp.dirty) && fp.sect < |old(fp.fs.Img())| && fp.fs.Img() == old(fp.fs.Img())[fp.sect := fp.buf[..]])
    ensures Others(old(fp.V()), fp.chain, fp.V(), fp.chain)
    ensures fp.fs.Grows()
  {
    hide Times, Quotient, Remainder;
    hide FatFs.Ready, FatFs.Journaled, Traced, FatOf, Content, FatFs.Img, GoodVol, View, SectorOf, Sized, Sec, Off, Chop, MapPrefix;
    res := Ok;
    ImageShaped(fp.fs);
    OthersSame(fp.V(), fp.chain, fp.V());
    if fp.dirty {
      ghost var v, f := fp.V(), fp.F();
      OnePlace(v, f, fp.bix);
      FileFacts(v, f);
      WriteBackKeeps(v, f);
      FlushOthers(v, f);
      hide Good, Geo.Sound, Others;
      ChopOne(fp.buf[..], fp.fs.Img(), fp.sect);
      var ok := DirectWrite(fp.fs, fp.buf[..], fp.sect, 1);
      if !ok { return DiskErr; }
      fp.dirty := false;
    }
  }

  /** Another sector of the file is read into the clean buffer. */
  method ReadBuf(fp: Fil, s: nat, ghost k: nat) returns (res: FResult)
    requires fp.Open() && !fp.dirty
    requires k < SectorCount(fp.fs.geo, fp.chain) && s == SectorOf(fp.fs.geo, fp.chain, k)
    requires Off(fp.fs.geo, fp.fptr) == 0 || k == Sec(fp.fs.geo, fp.fptr)
    modifies fp`sect, fp`bix, fp.buf
    ensures fp.Intact()
    ensures res == Ok || (res == DiskErr && fp.fs.disk.mayFail)
    ensures res == Ok ==> fp.Open() && fp.Data() == old(fp.Data())
    ensures res == Ok ==> fp.F() == old(fp.F()).(sect := s, bix := k, buf := fp.buf[..])
  {
    hide FatFs.Journaled, Traced, FatOf, Content, Good, SectorOf, Sec, Off, MapPrefix, Geo.Sound, SectorCount;
    ghost var v, f := fp.V(), fp.F();
    FileFacts(v, f);
    OnePlace(v, f, k);
    LoadKeeps(v, f, k);
    DataOnMedium(fp.fs, s);
    var ok := fp.fs.disk.Read(fp.buf, s);
    if !ok { return DiskErr; }
    res := Ok;
    fp.sect := s;
    fp.bix := k;
  }

  /** A data sector that is not in the window stands on the medium as in the image. */
  lemma DataOnMedium(fs: FatFs, s: nat)
    requires fs.Valid() && fs.geo.database <= s < fs.disk.size && s != fs.winsect
    ensures s < |fs.Img()| && fs.disk.sectors[s] == fs.Img()[s]
  {
    DataApart(fs.geo, s);
    hide Geo.Sound, FatFs.Journaled, Traced;
  }

  lemma RunOnMedium(fs: FatFs, s: nat, n: nat)
    requires fs.Valid() && fs.geo.database <= s && s + n <= fs.disk.size && !(s <= fs.winsect < s + n)
    ensures s + n <= |fs.Img()| && fs.disk.sectors[s..s + n] == fs.Img()[s..s + n]
  {
    ImageShaped(fs);
    forall t | s <= t < s + n ensures fs.disk.sectors[t] == fs.Img()[t] { DataOnMedium(fs, t); }
  }

  /** Copying a buffer over one sector's bytes of a run. */
  lemma PatchedRun(raw: seq<Sector>, j: nat, b: seq<byte>, ss: nat)
    requires Uniform(raw, ss) && j < |raw| && |b| == ss
    ensures |Flat(raw)| == |raw| * ss && j * ss + ss <= |Flat(raw)|
    ensures Overwrite(Flat(raw), j * ss, b) == Flat(raw[j := b])
  {
    FlatPatch(raw, j, 0, b, ss);
    OverwriteAll(raw[j], b);
  }

  /** The buffer test of the run, and the place of the buffered sector in it. */
  lemma RunTest(v: Vol, f: File, n: nat)
    requires Good(v, f) && Sec(v.g, f.fptr) < SectorCount(v.g, f.chain) && n > 0
    requires InnerIndex(v.g, Sec(v.g, f.fptr)) + n <= v.g.csize
    ensures var s, k := SectorOf(v.g, f.chain, Sec(v.g, f.fptr)), Sec(v.g, f.fptr);
      && (U32(f.sect - s) < n <==> f.sect != 0 && k <= f.bix < k + n)
      && (f.sect != 0 && k <= f.bix < k + n ==> U32(f.sect - s) == f.bix - k)
  {
    hide SectorOf, Sec, SectorCount, InnerIndex, Geo.Sound, GoodVol;
    var k := Sec(v.g, f.fptr);
    FileFacts(v, f);
    RunPlace(v, f, k, n);
    BufferInRun(v.g, f, k, n);
  }

  lemma RunUniform(v: Vol, s: nat, n: nat)
    requires Shaped(v.g, v.img) && v.g.database <= s && s + n <= |v.img|
    ensures Uniform(v.img[s..s + n], v.g.ss)
  {
    var raw := v.img[s..s + n];
    forall i | 0 <= i < n ensures |raw[i]| == v.g.ss { DataApart(v.g, s + i); }
  }

  /** Whole sectors of `f_read`: straight to the caller, patched with a dirty buffer. */
  method ReadDirect(fp: Fil, s: nat, cc: nat) returns (res: FResult, data: seq<byte>)
    requires fp.Open() && Off(fp.fs.geo, fp.fptr) == 0 && cc > 0 && fp.fptr + cc * fp.fs.geo.ss <= fp.objsize
    requires Sec(fp.fs.geo, fp.fptr) < SectorCount(fp.fs.geo, fp.chain)
    requires s == SectorOf(fp.fs.geo, fp.chain, Sec(fp.fs.geo, fp.fptr))
    requires InnerIndex(fp.fs.geo, Sec(fp.fs.geo, fp.fptr)) + cc <= fp.fs.geo.csize
    requires Holds(fp.fs.geo, fp.chain, fp.clust, Sec(fp.fs.geo, fp.fptr))
    modifies fp`fptr
    ensures res == Ok || (res == DiskErr && fp.fs.disk.mayFail)
    ensures res == Ok ==> fp.Open() && Placed(fp.fs.geo, fp.F()) && fp.Data() == old(fp.Data())
    ensures res == Ok ==> |data| == cc * fp.fs.geo.ss && fp.fptr == old(fp.fptr) + |data|
    ensures |old(fp.Data())| == fp.objsize
    ensures res == Ok ==> data == old(fp.Data())[old(fp.fptr)..fp.fptr]
    ensures res != Ok ==> fp.fptr == old(fp.fptr)
  {
    hide Times, Quotient, Remainder;
    hide FatFs.Journaled, Traced, FatOf, Content, SectorOf, Sec, Off, MapPrefix, Geo.Sound, SectorCount, InnerIndex, Flat, FatFs.Img, Good, Holds, Placed, Overwrite;
    var ss := fp.fs.geo.ss;
    ghost var v, f := fp.V(), fp.F();
    ghost var k := Sec(v.g, fp.fptr);
    FileFacts(v, f);
    SkipRun(v, f, cc);
    res, data := TakeDirect(fp, s, cc);
    if res != Ok { return; }
    fp.fptr := fp.fptr + ss * cc;
  }

  /** The transfer itself, patched with a dirty buffer. */
  method TakeDirect(fp: Fil, s: nat, cc: nat) returns (res: FResult, data: seq<byte>)
    requires fp.Open() && Off(fp.fs.geo, fp.fptr) == 0 && cc > 0 && fp.fptr + cc * fp.fs.geo.ss <= fp.objsize
    requires Sec(fp.fs.geo, fp.fptr) < SectorCount(fp.fs.geo, fp.chain)
    requires s == SectorOf(fp.fs.geo, fp.chain, Sec(fp.fs.geo, fp.fptr))
    requires InnerIndex(fp.fs.geo, Sec(fp.fs.geo, fp.fptr)) + cc <= fp.fs.geo.csize
    ensures res == Ok || (res == DiskErr && fp.fs.disk.mayFail)
    ensures |fp.Data()| == fp.objsize
    ensures res == Ok ==> |data| == cc * fp.fs.geo.ss && data == fp.Data()[fp.fptr..fp.fptr + |data|]
  {
    hide FatFs.Journaled, Traced, FatOf, Content, SectorOf, Sec, Off, MapPrefix, Geo.Sound, SectorCount, InnerIndex, Flat, FatFs.Img, Good, Overwrite;
    var ss := fp.fs.geo.ss;
    ghost var v, f := fp.V(), fp.F();
    ghost var k := Sec(v.g, fp.fptr);
    VolumeBounds(fp.fs);
    FileFacts(v, f);
    RunPlace(v, f, k, cc);
    ReadRun(v, f, cc, cc * v.g.ss);
    RunOnMedium(fp.fs, s, cc);
    var ok;
    ok, data := fp.fs.disk.ReadMany(s, cc);
    if !ok { return DiskErr, data; }
    res := Ok;
    RunUniform(v, s, cc);
    RunTest(v, f, cc);
    if fp.dirty && U32(fp.sect - s) < cc {
      var at := U32(fp.sect - s) * ss;
      PatchedRun(fp.fs.Img()[s..s + cc], U32(fp.sect - s), fp.buf[..], ss);
      data := Overwrite(data, at, fp.buf[..]);
    }
  }

  /** The sector at the pointer: `clust2sect` plus the offset in the cluster. */
  lemma CurrentSector(v: Vol, f: File)
    requires Good(v, f) && Sec(v.g, f.fptr) < SectorCount(v.g, f.chain) && Holds(v.g, f.chain, f.clust, Sec(v.g, f.fptr))
    ensures v.g.csize > 0 && v.g.ss > 0 && v.g.nFatent >= 2
    ensures BitAnd(f.fptr / v.g.ss, v.g.csize - 1) == InnerIndex(v.g, Sec(v.g, f.fptr)) < v.g.csize
    ensures Clust2Sect(v.g, f.clust) > 0
    ensures Clust2Sect(v.g, f.clust) + InnerIndex(v.g, Sec(v.g, f.fptr)) == SectorOf(v.g, f.chain, Sec(v.g, f.fptr))
  {
    Arithmetic();
    hide Times, Quotient, Remainder;
    FileFacts(v, f);
    Bounds(v.g);
    var k := Sec(v.g, f.fptr);
    MaskIsMod(f.fptr / v.g.ss, v.g.csize);
    SectorPlace(v.g, f.chain, k);
    ClusterSectors(v.g, f.clust);
  }

  /** The mask test for a cluster boundary. */
  lemma BoundaryMask(v: Vol, f: File)
    requires Good(v, f)
    ensures v.g.csize > 0 && v.g.ss > 0
    ensures BitAnd(f.fptr / v.g.ss, v.g.csize - 1) == InnerIndex(v.g, Sec(v.g, f.fptr))
    ensures Off(v.g, f.fptr) == f.fptr % v.g.ss
  {
    Arithmetic();
    hide Times, Quotient, Remainder;
    GeoFacts(v, f);
    MaskIsMod(f.fptr / v.g.ss, v.g.csize);
  }

  /** On a sector boundary inside the file: make the sector at the pointer current. */
  method SeekSectorForRead(fp: Fil) returns (res: FResult, sect: nat, csect: nat)
    requires fp.Open() && Placed(fp.fs.geo, fp.F())
    requires Off(fp.fs.geo, fp.fptr) == 0 && fp.fptr < fp.objsize
    modifies fp`clust, fp.fs`wflag, fp.fs`winsect, fp.fs`marks, fp.fs.win, fp.fs.disk
    ensures fp.Open() && fp.Data() == old(fp.Data()) && fp.fs.Img() == old(fp.fs.Img())
    ensures res == Ok || (res == DiskErr && fp.fs.disk.mayFail) || (res == IntErr && !fp.FullyMapped())
    ensures res == Ok ==>
      && Holds(fp.fs.geo, fp.chain, fp.clust, Sec(fp.fs.geo, fp.fptr)) && Sec(fp.fs.geo, fp.fptr) < SectorCount(fp.fs.geo, fp.chain)
      && sect == SectorOf(fp.fs.geo, fp.chain, Sec(fp.fs.geo, fp.fptr))
      && csect == InnerIndex(fp.fs.geo, Sec(fp.fs.geo, fp.fptr)) < fp.fs.geo.csize
    ensures fp.fs.Grows()
  {
    hide FatFs.Ready, FatFs.Journaled, Traced, FatOf, Good, Content, Sec, Off, InnerIndex, FatFs.Img, MapPrefix, Fil.FullyMapped, Clust2Sect, SectorOf, SectorCount, BitAnd, ClusterIndex;
    res, sect, csect := Ok, 0, 0;
    BoundaryMask(fp.V(), fp.F());
    InsideChain(fp.V(), fp.F());
    csect := BitAnd(fp.fptr / fp.fs.geo.ss, fp.fs.geo.csize - 1);
    if csect == 0 {
      res := EnterForRead(fp);
      if res != Ok { return; }
    } else {
      GeoFacts(fp.V(), fp.F());
      if fp.fptr == 0 { FirstPos(fp.fs.geo); FirstInner(fp.fs.geo); }
      SameCluster(fp.fs.geo, fp.F());
    }
    CurrentSector(fp.V(), fp.F());
    sect := Clust2Sect(fp.fs.geo, fp.clust);
    if sect == 0 { res := IntErr; return; }
    sect := sect + csect;
  }

  lemma FirstInner(g: Geo)
    ensures InnerIndex(g, Sec(g, 0)) == 0
  {
  }

  /** Inside a sector the buffer and the current cluster are those of the pointer. */
  lemma MidSector(v: Vol, f: File)
    requires Good(v, f) && Placed(v.g, f) && Off(v.g, f.fptr) != 0
    ensures f.sect != 0 && f.bix == Sec(v.g, f.fptr) && Holds(v.g, f.chain, f.clust, f.bix)
    ensures Sec(v.g, f.fptr) < SectorCount(v.g, f.chain)
  {
    GeoFacts(v, f);
    var k, r := Sec(v.g, f.fptr), Off(v.g, f.fptr);
    PosSplit(v.g, f.fptr);
    PosOf(v.g, k, r - 1);
    hide GoodVol, Sec, Off, SectorOf;
  }

  /** The buffer already holds the sector that lies at that place. */
  lemma SameSector(v: Vol, f: File, k: nat)
    requires Good(v, f) && k < SectorCount(v.g, f.chain)
    ensures f.sect == SectorOf(v.g, f.chain, k) ==> f.sect != 0 && f.bix == k
    ensures SectorOf(v.g, f.chain, k) > 0
  {
    FileFacts(v, f);
    SectorPlace(v.g, f.chain, k);
    hide SectorOf, GoodVol, InChain;
    if f.sect == SectorOf(v.g, f.chain, k) { SectorInjective(v.g, f.chain, f.bix, k); }
  }

  /** `f_read`: load the sector at the pointer unless the buffer has it. */
  method LoadForRead(fp: Fil, sect: nat) returns (res: FResult)
    requires fp.Open() && Off(fp.fs.geo, fp.fptr) == 0
    requires Sec(fp.fs.geo, fp.fptr) < SectorCount(fp.fs.geo, fp.chain)
    requires sect == SectorOf(fp.fs.geo, fp.chain, Sec(fp.fs.geo, fp.fptr))
    modifies fp`dirty, fp`sect, fp`bix, fp.buf, fp.fs`marks, fp.fs`bypass, fp.fs.disk
    ensures fp.Intact()
    ensures res == Ok || (res == DiskErr && fp.fs.disk.mayFail)
    ensures res == Ok ==> fp.Open() && fp.Data() == old(fp.Data()) && fp.fs.Fat() == old(fp.fs.Fat())
    ensures res == Ok ==> fp.sect != 0 && fp.bix == Sec(fp.fs.geo, fp.fptr)
    ensures fp.fs.Grows()
    ensures Others(old(fp.V()), fp.chain, fp.V(), fp.chain)
  {
    hide FatFs.Ready, FatFs.Journaled, Traced, FatOf, Good, Content, Sec, Off, FatFs.Img, MapPrefix, SectorOf, SectorCount, Others;
    OthersSame(fp.V(), fp.chain, fp.V());
    res := Ok;
    SameSector(fp.V(), fp.F(), Sec(fp.fs.geo, fp.fptr));
    if fp.sect != sect {
      res := FlushBuf(fp);
      if res != Ok { return; }
      res := ReadBuf(fp, sect, Sec(fp.fs.geo, fp.fptr));
      if res != Ok { return; }
    }
    fp.sect := sect;
  }

  /** Bytes at the pointer are taken from the buffer. */
  method TakeFromBuf(fp: Fil, btr: nat) returns (data: seq<byte>)
    requires fp.Open() && fp.sect != 0 && fp.bix == Sec(fp.fs.geo, fp.fptr) && Holds(fp.fs.geo, fp.chain, fp.clust, fp.bix)
    requires 0 < btr && fp.fptr + btr <= fp.objsize
    modifies fp`fptr
    ensures fp.Open() && Placed(fp.fs.geo, fp.F()) && fp.Data() == old(fp.Data())
    ensures |old(fp.Data())| == fp.objsize
    ensures 0 < |data| <= btr && fp.fptr == old(fp.fptr) + |data|
    ensures data == old(fp.Data())[old(fp.fptr)..fp.fptr]
  {
    Arithmetic();
    hide Times, Quotient, Remainder;
    hide FatFs.Ready, FatFs.Journaled, Traced, FatOf, Good, Content, Sec, FatFs.Img, MapPrefix, SectorOf, SectorCount, Placed, Holds;
    ghost var v, f := fp.V(), fp.F();
    GeoFacts(v, f);
    BufFacts(v, f);
    GoodIsStaged(v, f);
    var ss := fp.fs.geo.ss;
    var at := fp.fptr % ss;
    var rcnt := ss - at;
    if rcnt > btr { rcnt := btr; }
    ReadPart(v, f, rcnt);
    SkipPart(v, f, rcnt);
    data := fp.buf[at..at + rcnt];
    assert data == f.buf[at..at + rcnt];
    hide Off, ValidSectorSize;
    fp.fptr := fp.fptr + rcnt;
  }

  lemma GoodIsStaged(v: Vol, f: File)
    requires Good(v, f)
    ensures Staged(v, f)
  {
  }

  /** Number of whole sectors to transfer directly, clipped at the cluster boundary. */
  function Whole(btr: nat, ss: nat, csect: nat, csize: nat): (cc: nat)
    requires ss > 0 && csect < csize
    ensures cc * ss <= btr && csect + cc <= csize
    ensures cc == 0 <==> btr < ss
  {
    var cc := btr / ss;
    var r := if csect + cc > csize then csize - csect else cc;
    MulMono(r, cc, ss);
    r
  }

  /** One pass of the loop of `f_read`. */
  method ReadSome(fp: Fil, btr: nat) returns (res: FResult, data: seq<byte>)
    requires fp.Open() && Placed(fp.fs.geo, fp.F())
    requires 0 < btr && fp.fptr + btr <= fp.objsize
    modifies fp`clust, fp`dirty, fp`sect, fp`bix, fp`fptr, fp.buf
    modifies fp.fs`wflag, fp.fs`winsect, fp.fs`marks, fp.fs`bypass, fp.fs.win, fp.fs.disk
    ensures fp.Intact()
    ensures res == Ok || (res == DiskErr && fp.fs.disk.mayFail) || (res == IntErr && !fp.FullyMapped())
    ensures res == Ok ==> fp.Open() && Placed(fp.fs.geo, fp.F()) && fp.Data() == old(fp.Data())
    ensures |old(fp.Data())| == fp.objsize
    ensures res == Ok ==> 0 < |data| <= btr && fp.fptr == old(fp.fptr) + |data|
    ensures res == Ok ==> data == old(fp.Data())[old(fp.fptr)..fp.fptr]
    ensures fp.fs.Grows()
    ensures Others(old(fp.V()), fp.chain, fp.V(), fp.chain)
  {
    hide Times, Quotient, Remainder;
    hide FatFs.Ready, FatFs.Journaled, Traced, FatOf, Good, Content, Sec, Off, InnerIndex, FatFs.Img, MapPrefix, Fil.FullyMapped, SectorOf, SectorCount, BitAnd, Holds, Placed, Others, Whole;
    ghost var v0 := fp.V();
    OthersSame(v0, fp.chain, v0);
    res, data := Ok, [];
    var ss := fp.fs.geo.ss;
    GeoFacts(fp.V(), fp.F());
    BufFacts(fp.V(), fp.F());
    BoundaryMask(fp.V(), fp.F());
    if fp.fptr % ss == 0 {
      var sect, csect;
      res, sect, csect := SeekSectorForRead(fp);
      ghost var v1 := fp.V();
      OthersSame(v0, fp.chain, v1);
      if res != Ok { return; }
      var cc := Whole(btr, ss, csect, fp.fs.geo.csize);
      if cc > 0 {
        res, data := ReadDirect(fp, sect, cc);
        return;
      }
      res := LoadForRead(fp, sect);
      OthersTrans(v0, fp.chain, v1, fp.chain, fp.V(), fp.chain);
      if res != Ok { return; }
    }
    if Off(fp.fs.geo, fp.fptr) != 0 { MidSector(fp.V(), fp.F()); }
    data := TakeFromBuf(fp, btr);
  }

  function Smaller(a: nat, b: nat): nat
  {
    if a < b then a else b
  }

  /** Number of bytes from p to the end. */
  function Remaining(s: seq<byte>, p: nat): nat
  {
    if p <= |s| then |s| - p else 0
  }

  function Slice(s: seq<byte>, p: nat, q: nat): seq<byte>
  {
    if p <= q <= |s| then s[p..q] else []
  }

  lemma SliceIs(s: seq<byte>, p: nat, q: nat)
    requires p <= q <= |s|
    ensures Slice(s, p, q) == s[p..q]
  {
  }

  lemma SliceNone(s: seq<byte>, p: nat)
    ensures Slice(s, p, p) == []
  {
  }

  lemma SliceJoin(s: seq<byte>, p: nat, q: nat, r: nat)
    requires p <= q <= r <= |s|
    ensures Slice(s, p, q) + s[q..r] == Slice(s, p, r)
  {
  }

  /** `f_read`: the slice of the file at the pointer, cut at the end of the file. */
  method FRead(fp: Fil, btr: nat) returns (res: FResult, data: seq<byte>)
    requires fp.Valid()
    modifies fp`clust, fp`dirty, fp`sect, fp`bix, fp`fptr, fp`err, fp.buf
    modifies fp.fs`wflag, fp.fs`winsect, fp.fs`marks, fp.fs`bypass, fp.fs.win, fp.fs.disk
    ensures fp.Valid() && fp.fs.Grows()
    ensures old(fp.err) != Ok ==> res == old(fp.err) && data == [] && fp.err == old(fp.err)
    ensures old(fp.err) == Ok && !fp.canRead ==> res == Denied && data == [] && fp.err == Ok && fp.F() == old(fp.F()) && fp.V() == old(fp.V())
    ensures old(fp.err) == Ok && fp.canRead ==> res == fp.err
    ensures old(fp.err) == Ok && fp.canRead && res != Ok ==>
      (res == DiskErr && fp.fs.disk.mayFail) || (res == IntErr && !fp.FullyMapped())
    ensures res == Ok ==>
      && fp.Data() == old(fp.Data())
      && old(fp.fptr) <= |fp.Data()|
      && fp.fptr == (if old(fp.fptr) + btr <= |fp.Data()| then old(fp.fptr) + btr else |fp.Data()|)
      && data == fp.Data()[old(fp.fptr)..fp.fptr]
    ensures old(fp.err) == Ok ==> Others(old(fp.V()), fp.chain, fp.V(), fp.chain)
  {
    hide FatFs.Ready, FatFs.Journaled, Traced, FatOf, Good, Content, FatFs.Img, MapPrefix, Fil.FullyMapped, Holds, Placed, Others, Slice;
    data := [];
    if fp.err != Ok { return fp.err, []; }
    ghost var v0 := fp.V();
    OthersSame(v0, fp.chain, v0);
    if !fp.canRead { return Denied, []; }
    GeoFacts(fp.V(), fp.F());
    BufFacts(fp.V(), fp.F());
    ghost var whole, p := fp.Data(), fp.fptr;
    var remain: nat := fp.objsize - fp.fptr;
    assert remain == Remaining(whole, p);
    var left: nat := if btr > remain then remain else btr;
    res := Ok;
    SliceNone(whole, p);
    while left > 0
      invariant fp.Open() && Placed(fp.fs.geo, fp.F()) && fp.fs.Grows() && fp.err == Ok && res == Ok
      invariant fp.Data() == whole && |whole| == fp.objsize
      invariant |data| + left == Smaller(btr, remain) && fp.fptr == p + |data| && fp.fptr + left <= fp.objsize
      invariant data == Slice(whole, p, fp.fptr)
      invariant Others(v0, fp.chain, fp.V(), fp.chain)
    {
      ghost var v1 := fp.V();
      var part;
      res, part := ReadSome(fp, left);
      OthersTrans(v0, fp.chain, v1, fp.chain, fp.V(), fp.chain);
      if res != Ok {
        fp.err := res;
        return;
      }
      SliceJoin(whole, p, fp.fptr - |part|, fp.fptr);
      data := data + part;
      left := left - |part|;
    }
    SliceIs(whole, p, fp.fptr);
  }

  // ----- f_write

  /** Where the cluster at the pointer is found or to be attached, at a cluster boundary. */
  lemma NextForWriteIs(v: Vol, f: File)
    requires Good(v, f) && Placed(v.g, f) && Off(v.g, f.fptr) == 0 && InnerIndex(v.g, Sec(v.g, f.fptr)) == 0
    ensures var q := ClusterIndex(v.g, Sec(v.g, f.fptr));
      && (f.fptr == 0 <==> q == 0)
      && (f.fptr > 0 ==> q <= |f.chain| && v.g.ValidCluster(f.clust) && f.clust == f.chain[q - 1])
      && (f.fptr > 0 ==> FatOf(v.g, v.img)[f.clust] >= 2)
      && (f.fptr > 0 && q < |f.chain| ==> FatOf(v.g, v.img)[f.clust] == f.chain[q] && v.g.ValidCluster(f.chain[q]))
      && (f.fptr > 0 && q == |f.chain| ==> FatOf(v.g, v.img)[f.clust] >= v.g.nFatent)
      && (f.chain != [] ==> v.g.ValidCluster(f.chain[0]))
  {
    hide Good, FatOf, Sec, Off, InnerIndex, ClusterIndex, SectorCount;
    GeoFacts(v, f);
    if f.chain != [] { NextCluster(v, f, 0); }
    if f.fptr == 0 {
      FirstPos(v.g);
    } else {
      SameCluster(v.g, f);
      NextCluster(v, f, ClusterIndex(v.g, Sec(v.g, f.fptr)) - 1);
    }
  }

  /** At a cluster boundary a sector is inside the file's clusters as soon as its cluster is. */
  lemma BoundarySector(g: Geo, chain: seq<nat>, k: nat)
    requires g.csize > 0 && ClusterIndex(g, k) < |chain|
    ensures k < SectorCount(g, chain)
  {
    Arithmetic();
    hide Times, Quotient, Remainder;
    IndexSplit(g, k);
    var q := ClusterIndex(g, k);
    MulMono(q + 1, |chain|, g.csize);
    assert (q + 1) * g.csize == q * g.csize + g.csize;
  }

  /** The FAT after an allocation is the one the file model expects. */
  lemma AllocIsGrown(fat: FatMap, chain: seq<nat>, clst: nat, r: nat, eoc: nat)
    requires InRange(fat, r) && (if chain == [] then clst == 0 else clst == chain[|chain| - 1] && InRange(fat, clst))
    ensures Final(fat, AllocSteps(fat, clst, r, eoc)) == if chain == [] then Marked(fat, r, eoc) else Grown(fat, chain, r, eoc)
  {
  }

  lemma GoodFat(v: Vol, f: File)
    requires Good(v, f)
    ensures !HasInvalid(FatOf(v.g, v.img)) && GoodVol(v, f.chain) && v.g.Sound()
  {
    hide Shaped, FatOf, IsChain;
    GoodClusters(v, f.chain);
  }

  lemma FirstFreeIs(fat: FatMap, scl: nat, r: nat)
    requires FirstFree(fat, scl, r)
    ensures InRange(fat, r) && fat[r] == 0
  {
  }

  /** A fresh cluster joins the file: its data, and every other file's, stay. */
  lemma GrowFile(v: Vol, f: File, w: Vol, last: nat, scl: nat, r: nat)
    requires Good(v, f) && w.g == v.g && OnlyFat(v.g, v.img, w.img) && Shaped(w.g, w.img)
    requires w.winsect == v.winsect || w.winsect == NO_SECTOR || v.g.InFat(w.winsect)
    requires FirstFree(FatOf(v.g, v.img), scl, r)
    requires FatOf(w.g, w.img) == Final(FatOf(v.g, v.img), AllocSteps(FatOf(v.g, v.img), last, r, EndMark(v.g)))
    requires if f.chain == [] then last == 0 else last == f.chain[|f.chain| - 1] && v.g.ValidCluster(last)
    ensures Good(w, f.(chain := f.chain + [r])) && Content(w, f.(chain := f.chain + [r])) == Content(v, f)
    ensures Others(v, f.chain, w, f.chain + [r]) && v.g.ValidCluster(r)
  {
    hide Good, Content, Others, FatOf, OnlyFat, Shaped, EndMark, AllocSteps;
    GoodFat(v, f);
    LinkReadsBack(v.g, 0);
    FirstFreeIs(FatOf(v.g, v.img), scl, r);
    AllocIsGrown(FatOf(v.g, v.img), f.chain, last, r, EndMark(v.g));
    GrowKeepsFile(v, f, w, r, EndMark(v.g));
    OthersGrow(v, f.chain, w, r, EndMark(v.g));
  }

  /** create_chain followed an existing link instead of allocating. */
  predicate OnlyFollowed(fat: FatMap, last: nat, r: nat)
  {
    r == 0 || (last != 0 && Followed(fat, last))
  }

  /** last is what create_chain is asked to continue to reach cluster q of the file. */
  ghost predicate Before(chain: seq<nat>, last: nat, q: nat)
  {
    if q == 0 then last == 0 && chain == [] else q <= |chain| && last == chain[q - 1]
  }

  lemma LinkAt(v: Vol, f: File, last: nat, q: nat)
    requires Good(v, f) && Before(f.chain, last, q)
    ensures last == 0 <==> q == 0
    ensures last != 0 ==> v.g.ValidCluster(last) && FatOf(v.g, v.img)[last] >= 2
    ensures last != 0 && q < |f.chain| ==> FatOf(v.g, v.img)[last] == f.chain[q] && v.g.ValidCluster(f.chain[q])
    ensures last != 0 && q == |f.chain| ==> FatOf(v.g, v.img)[last] >= v.g.nFatent
    ensures f.chain != [] ==> v.g.ValidCluster(f.chain[0])
    ensures v.g.nFatent < 0x0FFF_FFF8
  {
    hide Good, FatOf;
    GeoFacts(v, f);
    if f.chain != [] { NextCluster(v, f, 0); }
    if q > 0 { NextCluster(v, f, q - 1); }
  }

  /** What create_chain(last) returning r means for the file: nothing changed, or its chain
      grew by r; either way r is cluster q of the file. */
  lemma StretchOutcome(v: Vol, f: File, w: Vol, last: nat, q: nat, scl: nat, r: nat)
    requires Good(v, f) && w.g == v.g && OnlyFat(v.g, v.img, w.img) && Shaped(w.g, w.img)
    requires Before(f.chain, last, q)
    requires w.winsect == v.winsect || w.winsect == NO_SECTOR || v.g.InFat(w.winsect)
    requires OnlyFollowed(FatOf(v.g, v.img), last, r) ==> w.img == v.img && (r != 0 ==> r == FatOf(v.g, v.img)[last])
    requires !OnlyFollowed(FatOf(v.g, v.img), last, r) ==>
      && FirstFree(FatOf(v.g, v.img), scl, r)
      && FatOf(w.g, w.img) == Final(FatOf(v.g, v.img), AllocSteps(FatOf(v.g, v.img), last, r, EndMark(v.g)))
    ensures var c := if OnlyFollowed(FatOf(v.g, v.img), last, r) then f.chain else f.chain + [r];
      && Good(w, f.(chain := c)) && Content(w, f.(chain := c)) == Content(v, f) && Others(v, f.chain, w, c)
      && (r != 0 ==> 2 <= r < v.g.nFatent < DISK_ERROR && c != [] && c[0] != 0)
      && (r != 0 ==> q < |c| && r == c[q])
  {
    hide Good, Content, Others, FatOf, OnlyFat, Shaped, EndMark, AllocSteps, Final, FirstFree;
    LinkAt(v, f, last, q);
    if OnlyFollowed(FatOf(v.g, v.img), last, r) {
      VolMoved(v, f, w.winsect);
      OthersSame(v, f.chain, w);
      assert f.(chain := f.chain) == f;
    } else {
      GrowFile(v, f, w, last, scl, r);
    }
  }

  /** create_chain on behalf of the file: follow, or take a free cluster. */
  method StretchFile(fp: Fil, last: nat, ghost q: nat) returns (res: FResult, clst: nat)
    requires fp.Open() && Before(fp.chain, last, q)
    modifies fp`chain, fp`sclust
    modifies fp.fs`wflag, fp.fs`winsect, fp.fs`marks, fp.fs`log, fp.fs`fats, fp.fs`lastClst, fp.fs`freeClst, fp.fs`fsiDirty, fp.fs.win, fp.fs.disk
    ensures StaysSafe(fp.fs, res != DiskErr)
    ensures fp.Intact() && fp.fs.Grows()
    ensures res == Ok || (res == DiskErr && fp.fs.disk.mayFail)
    ensures res == Ok ==> fp.Open() && fp.Data() == old(fp.Data()) && Others(old(fp.V()), old(fp.chain), fp.V(), fp.chain)
    ensures res == Ok && clst == 0 ==> fp.chain == old(fp.chain) && NoneFree(fp.fs.Fat())
    ensures res == Ok && clst != 0 ==> 2 <= clst < fp.fs.geo.nFatent && clst < DISK_ERROR && q < |fp.chain| && clst == fp.chain[q]
    ensures res == Ok && q < |old(fp.chain)| ==> clst != 0
    ensures old(fp.chain) <= fp.chain
  {
    hide AllWellFormed, TornLast;
    hide FatFs.Ready, FatFs.Journaled, Traced, FatOf, Good, Content, FatFs.Img, MapPrefix, Others, NoneFree, EndMark, FirstFree, OnlyFat, AllocSteps, Final, FatFs.Grows;
    res := Ok;
    ghost var c;
    clst, c := ClusterFor(fp, last, q);
    if clst == DISK_ERROR { return DiskErr, clst; }
    if clst == 1 { return IntErr, clst; }
    fp.chain := c;
    if fp.sclust == 0 { fp.sclust := clst; }
  }

  /** `create_chain` called with a cluster of the file, or with 0 for an empty file; c is
      the file's chain afterwards. */
  method ClusterFor(fp: Fil, last: nat, ghost q: nat) returns (clst: nat, ghost c: seq<nat>)
    requires fp.Open() && Before(fp.chain, last, q)
    modifies fp.fs`wflag, fp.fs`winsect, fp.fs`marks, fp.fs`log, fp.fs`fats, fp.fs`lastClst, fp.fs`freeClst, fp.fs`fsiDirty, fp.fs.win, fp.fs.disk
    ensures StaysSafe(fp.fs, clst != DISK_ERROR)
    ensures fp.Intact() && fp.fs.Grows() && fp.F() == old(fp.F())
    ensures clst == DISK_ERROR ==> fp.fs.disk.mayFail
    ensures clst != 1 && fp.chain <= c
    ensures fp.cltbl != null ==> MapPrefix(fp.cltbl[..], c)
    ensures clst != DISK_ERROR ==>
      && Good(fp.V(), fp.F().(chain := c)) && Content(fp.V(), fp.F().(chain := c)) == old(fp.Data())
      && Others(old(fp.V()), fp.chain, fp.V(), c)
    ensures clst == 0 ==> c == fp.chain && NoneFree(fp.fs.Fat()) && q >= |fp.chain|
    ensures clst != 0 && clst != DISK_ERROR ==> 2 <= clst < fp.fs.geo.nFatent < DISK_ERROR && q < |c| && clst == c[q] && c[0] != 0
    ensures clst != 0 && clst != DISK_ERROR && fp.chain != [] ==> c[0] == fp.chain[0]
    ensures clst != 0 && clst != DISK_ERROR && fp.chain == [] ==> c[0] == clst
    ensures fp.chain != [] ==> fp.chain[0] != 0
  {
    hide AllWellFormed, TornLast;
    hide FatFs.Ready, FatFs.Journaled, Traced, FatOf, Good, Content, FatFs.Img, MapPrefix, Others, NoneFree, EndMark, FirstFree, OnlyFat, AllocSteps, Final, FatFs.Grows, FatFs.Mirrored, HasInvalid, Shaped, AllocCut, WellFormed, Geo.Sound;
    ghost var v, f, hint, fats := fp.V(), fp.F(), fp.fs.lastClst, fp.fs.fats;
    LinkAt(v, f, last, q);
    GoodFat(v, f);
    clst := CreateChain(fp.fs, last);
    if AllWellFormed(fats) {
      CallIsSafe(v.g, fats, FatOf(v.g, v.img), last, SearchStart(last, hint, v.g.nFatent), clst, fp.fs.fats);
    }
    c := fp.chain;
    if clst != DISK_ERROR {
      ImageShaped(fp.fs);
      StretchOutcome(v, f, fp.V(), last, q, SearchStart(last, hint, v.g.nFatent), clst);
      if fp.cltbl != null { MapGrows(fp.cltbl[..], fp.chain, clst); }
      c := if OnlyFollowed(FatOf(v.g, v.img), last, clst) then fp.chain else fp.chain + [clst];
    }
  }

  /** No further cluster can be had at the pointer: none is free, or the attached link map
      does not list one. */
  ghost predicate Full(fp: Fil)
    reads fp`cltbl, fp.cltbl, fp`fptr, fp.fs`wflag, fp.fs`winsect, fp.fs.win, fp.fs.disk
  {
    NoneFree(fp.fs.Fat()) || fp.BeyondMap(fp.fptr)
  }

  /** `f_write` at a cluster boundary: the cluster for the pointer becomes current. */
  method EnterForWrite(fp: Fil) returns (res: FResult, full: bool)
    requires fp.Open() && fp.err == Ok && Placed(fp.fs.geo, fp.F())
    requires Off(fp.fs.geo, fp.fptr) == 0 && InnerIndex(fp.fs.geo, Sec(fp.fs.geo, fp.fptr)) == 0
    modifies fp`clust, fp`sclust, fp`chain
    modifies fp.fs`wflag, fp.fs`winsect, fp.fs`marks, fp.fs`log, fp.fs`fats, fp.fs`lastClst, fp.fs`freeClst, fp.fs`fsiDirty, fp.fs.win, fp.fs.disk
    ensures StaysSafe(fp.fs, res != DiskErr)
    ensures fp.Intact() && fp.fs.Grows()
    ensures res == Ok || (res == DiskErr && fp.fs.disk.mayFail)
    ensures res == Ok ==> fp.Open() && fp.Data() == old(fp.Data()) && Others(old(fp.V()), old(fp.chain), fp.V(), fp.chain)
    ensures res == Ok && full ==> Full(fp) && Placed(fp.fs.geo, fp.F())
    ensures res == Ok && !full ==> Holds(fp.fs.geo, fp.chain, fp.clust, Sec(fp.fs.geo, fp.fptr)) && Sec(fp.fs.geo, fp.fptr) < SectorCount(fp.fs.geo, fp.chain)
    ensures old(fp.chain) <= fp.chain
  {
    hide AllWellFormed, TornLast;
    hide FatFs.Ready, FatFs.Journaled, Traced, FatOf, Good, Content, Sec, Off, InnerIndex, FatFs.Img, MapPrefix, SectorOf, SectorCount, ClusterIndex, Others, NoneFree, Placed;
    var clst;
    full := false;
    res, clst := NextForWrite(fp);
    if res != Ok { return; }
    if clst == 0 { full := true; return; }
    GeoFacts(fp.V(), fp.F());
    BoundarySector(fp.fs.geo, fp.chain, Sec(fp.fs.geo, fp.fptr));
    Reclust(fp.V(), fp.F(), clst);
    hide FatFs.Valid, Full;
    fp.clust := clst;
  }

  method NextForWrite(fp: Fil) returns (res: FResult, clst: nat)
    requires fp.Open() && fp.err == Ok && Placed(fp.fs.geo, fp.F())
    requires Off(fp.fs.geo, fp.fptr) == 0 && InnerIndex(fp.fs.geo, Sec(fp.fs.geo, fp.fptr)) == 0
    modifies fp`sclust, fp`chain
    modifies fp.fs`wflag, fp.fs`winsect, fp.fs`marks, fp.fs`log, fp.fs`fats, fp.fs`lastClst, fp.fs`freeClst, fp.fs`fsiDirty, fp.fs.win, fp.fs.disk
    ensures StaysSafe(fp.fs, res != DiskErr)
    ensures fp.Intact() && fp.fs.Grows()
    ensures res == Ok || (res == DiskErr && fp.fs.disk.mayFail)
    ensures res == Ok ==> fp.Open() && fp.Data() == old(fp.Data()) && Others(old(fp.V()), old(fp.chain), fp.V(), fp.chain)
    ensures res == Ok && clst == 0 ==> Full(fp) && fp.chain == old(fp.chain)
    ensures res == Ok && clst != 0 ==> Holds(fp.fs.geo, fp.chain, clst, Sec(fp.fs.geo, fp.fptr))
    ensures old(fp.chain) <= fp.chain
  {
    hide AllWellFormed, TornLast;
    hide FatFs.Ready, FatFs.Journaled, Traced, FatOf, Good, Content, Sec, Off, InnerIndex, FatFs.Img, MapPrefix, SectorOf, SectorCount, ClusterIndex, Others, NoneFree, Placed;
    GeoFacts(fp.V(), fp.F());
    NextForWriteIs(fp.V(), fp.F());
    OthersSame(fp.V(), fp.chain, fp.V());
    ghost var q := ClusterIndex(fp.fs.geo, Sec(fp.fs.geo, fp.fptr));
    res := Ok;
    if fp.fptr == 0 && fp.sclust != 0 {
      clst := fp.sclust;
    } else if fp.fptr != 0 && fp.cltbl != null {
      clst := MappedCluster(fp, fp.fptr);
    } else {
      res, clst := StretchFile(fp, if fp.fptr == 0 then 0 else fp.clust, q);
    }
  }

  /** Whole sectors of `f_write`: straight from the caller, refilling the buffer if it
      holds one of them. */
  method WriteDirect(fp: Fil, d: seq<byte>, s: nat, cc: nat) returns (res: FResult)
    requires fp.Open() && !fp.dirty && Off(fp.fs.geo, fp.fptr) == 0 && cc > 0 && |d| == cc * fp.fs.geo.ss
    requires fp.fptr + |d| < TWO32
    requires Sec(fp.fs.geo, fp.fptr) < SectorCount(fp.fs.geo, fp.chain)
    requires s == SectorOf(fp.fs.geo, fp.chain, Sec(fp.fs.geo, fp.fptr))
    requires InnerIndex(fp.fs.geo, Sec(fp.fs.geo, fp.fptr)) + cc <= fp.fs.geo.csize
    requires Holds(fp.fs.geo, fp.chain, fp.clust, Sec(fp.fs.geo, fp.fptr))
    modifies fp`fptr, fp`objsize, fp`dirty, fp.buf, fp.fs`marks, fp.fs`bypass, fp.fs.disk
    ensures fp.Intact() && fp.fs.Grows()
    ensures res == Ok || (res == DiskErr && fp.fs.disk.mayFail)
    ensures res == Ok ==> fp.Open() && Placed(fp.fs.geo, fp.F())
    ensures |old(fp.Data())| == old(fp.objsize) && old(fp.fptr) <= old(fp.objsize)
    ensures res == Ok ==> fp.Data() == Overwrite(old(fp.Data()), old(fp.fptr), d) && fp.fptr == old(fp.fptr) + |d|
    ensures res == Ok ==> Others(old(fp.V()), fp.chain, fp.V(), fp.chain) && fp.fs.Fat() == old(fp.fs.Fat())
  {
    hide FatFs.Journaled, Traced, FatOf, Good, Content, Sec, Off, InnerIndex, FatFs.Img, MapPrefix, SectorOf, SectorCount, ClusterIndex, Others, Placed, Holds, Overwrite, Chop, Geo.Sound;
    ghost var v, f := fp.V(), fp.F();
    GeoFacts(v, f);
    BufFacts(v, f);
    RunTest(v, f, cc);
    DirectKeeps(v, f, cc, d);
    DirectOthers(v, f, cc, d);
    var ok := DirectToMedium(fp, d, s, cc);
    if !ok { return DiskErr; }
    res := Ok;
    AdvanceDirect(fp, d, s, cc);
    hide Direct, DirectVol;
  }

  /** The buffer, the pointer and the size after a direct write. */
  method AdvanceDirect(fp: Fil, d: seq<byte>, s: nat, cc: nat)
    requires fp.buf.Length == fp.fs.geo.ss > 0 && |d| == cc * fp.fs.geo.ss && !fp.dirty
    requires U32(fp.sect - s) < cc <==> fp.sect != 0 && Sec(fp.fs.geo, fp.fptr) <= fp.bix < Sec(fp.fs.geo, fp.fptr) + cc
    requires U32(fp.sect - s) < cc ==> U32(fp.sect - s) == fp.bix - Sec(fp.fs.geo, fp.fptr)
    modifies fp`fptr, fp`objsize, fp`dirty, fp.buf
    ensures fp.F() == Direct(fp.fs.geo, old(fp.F()), cc, d)
  {
    hide Chop, Sec;
    RefillBuf(fp, d, s, cc);
    fp.fptr := fp.fptr + fp.fs.geo.ss * cc;
    if fp.fptr > fp.objsize { fp.objsize := fp.fptr; }
  }

  /** The whole sectors go to the medium. */
  method DirectToMedium(fp: Fil, d: seq<byte>, s: nat, cc: nat) returns (ok: bool)
    requires fp.Open() && cc > 0 && |d| == cc * fp.fs.geo.ss
    requires Sec(fp.fs.geo, fp.fptr) < SectorCount(fp.fs.geo, fp.chain)
    requires s == SectorOf(fp.fs.geo, fp.chain, Sec(fp.fs.geo, fp.fptr))
    requires InnerIndex(fp.fs.geo, Sec(fp.fs.geo, fp.fptr)) + cc <= fp.fs.geo.csize
    modifies fp.fs`marks, fp.fs`bypass, fp.fs.disk
    ensures fp.Intact() && fp.fs.Grows()
    ensures !ok ==> fp.fs.disk.mayFail
    ensures s + cc <= |old(fp.fs.Img())|
    ensures ok ==> fp.V() == DirectVol(old(fp.V()), fp.F(), cc, d) && fp.fs.Fat() == old(fp.fs.Fat())
  {
    hide FatFs.Journaled, Traced, FatOf, Good, Sec, InnerIndex, FatFs.Img, MapPrefix, SectorOf, SectorCount, Chop, Geo.Sound;
    VolumeBounds(fp.fs);
    RunPlace(fp.V(), fp.F(), Sec(fp.fs.geo, fp.fptr), cc);
    ok := DirectWrite(fp.fs, d, s, cc);
  }

  /** Refill the sector buffer if the direct write overtook it. */
  method RefillBuf(fp: Fil, d: seq<byte>, s: nat, cc: nat)
    requires fp.buf.Length == fp.fs.geo.ss > 0 && |d| == cc * fp.fs.geo.ss && !fp.dirty
    requires U32(fp.sect - s) < cc <==> fp.sect != 0 && Sec(fp.fs.geo, fp.fptr) <= fp.bix < Sec(fp.fs.geo, fp.fptr) + cc
    requires U32(fp.sect - s) < cc ==> U32(fp.sect - s) == fp.bix - Sec(fp.fs.geo, fp.fptr)
    modifies fp`dirty, fp.buf
    ensures !fp.dirty && fp.buf[..] == Direct(fp.fs.geo, old(fp.F()), cc, d).buf
  {
    hide Chop, Sec;
    if U32(fp.sect - s) < cc {
      var at := U32(fp.sect - s) * fp.fs.geo.ss;
      ChopAt(d, cc, fp.fs.geo.ss, U32(fp.sect - s));
      CopyIn(fp.buf, 0, d[at..at + fp.fs.geo.ss]);
      fp.dirty := false;
    }
  }

  /** A slice of the caller's data is the sector it becomes. */
  lemma {:induction false} ChopAt(d: seq<byte>, n: nat, ss: nat, i: nat)
    requires |d| == n * ss && i < n
    ensures i * ss + ss <= |d| && Chop(d, n, ss)[i] == d[i * ss..i * ss + ss]
    decreases n
  {
    assert |d| == ss + (n - 1) * ss;
    var rest := Chop(d[ss..], n - 1, ss);
    assert Chop(d, n, ss) == [d[..ss]] + rest;
    if i > 0 {
      ChopAt(d[ss..], n - 1, ss, i - 1);
      assert i * ss == ss + (i - 1) * ss;
      Shifted(d, ss, (i - 1) * ss, ss);
    }
  }

  lemma Shifted(d: seq<byte>, a: nat, p: nat, n: nat)
    requires a + p + n <= |d|
    ensures d[a..][p..p + n] == d[a + p..a + p + n]
  {
  }

  lemma DirectOthers(v: Vol, f: File, n: nat, d: seq<byte>)
    requires Good(v, f) && |d| == n * v.g.ss && n > 0
    requires Sec(v.g, f.fptr) < SectorCount(v.g, f.chain) && InnerIndex(v.g, Sec(v.g, f.fptr)) + n <= v.g.csize
    ensures SectorOf(v.g, f.chain, Sec(v.g, f.fptr)) + n <= |v.img|
    ensures Others(v, f.chain, DirectVol(v, f, n, d), f.chain)
  {
    hide Others, GoodVol, SectorOf, InnerIndex, Sec, Chop;
    OthersWrite(v, f.chain, Sec(v.g, f.fptr), Chop(d, n, v.g.ss));
  }

  /** `f_write`: point the clean buffer at the sector of the pointer, reading it only if
      the file already has bytes there. */
  method StageForWrite(fp: Fil, sect: nat) returns (res: FResult)
    requires fp.Open() && !fp.dirty && Off(fp.fs.geo, fp.fptr) == 0
    requires Sec(fp.fs.geo, fp.fptr) < SectorCount(fp.fs.geo, fp.chain)
    requires sect == SectorOf(fp.fs.geo, fp.chain, Sec(fp.fs.geo, fp.fptr))
    modifies fp`sect, fp`bix, fp.buf
    ensures fp.Intact()
    ensures res == Ok || (res == DiskErr && fp.fs.disk.mayFail)
    ensures res == Ok ==> Staged(fp.V(), fp.F()) && fp.Data() == old(fp.Data()) && fp.Mapped()
    ensures res == Ok ==> fp.sect != 0 && fp.bix == Sec(fp.fs.geo, fp.fptr) && fp.F() == old(fp.F()).(sect := fp.sect, bix := fp.bix, buf := fp.buf[..])
  {
    hide FatFs.Journaled, Traced, FatOf, Good, Staged, Content, SectorOf, Sec, Off, MapPrefix, Geo.Sound, SectorCount;
    ghost var v, f := fp.V(), fp.F();
    ghost var k := Sec(v.g, fp.fptr);
    BufFacts(v, f);
    OnePlace(v, f, k);
    SameSector(v, f, k);
    DataOnMedium(fp.fs, sect);
    BufferedHere(v, f);
    res := Ok;
    if fp.sect != sect && fp.fptr < fp.objsize {
      var ok := fp.fs.disk.Read(fp.buf, sect);
      if !ok { return DiskErr; }
    }
    StageKeeps(v, f, k, fp.buf[..]);
    fp.sect := sect;
    fp.bix := k;
  }

  lemma BufferedHere(v: Vol, f: File)
    requires Good(v, f) && !f.dirty
    ensures f.sect != 0 ==> f.sect < |v.img| && f.buf == v.img[f.sect]
  {
  }

  /** Bytes are copied into the buffer at the pointer, which moves on behind them. */
  method PutToBuf(fp: Fil, d: seq<byte>) returns (wcnt: nat)
    requires fp.Intact() && fp.Mapped() && fp.sclust == (if fp.chain == [] then 0 else fp.chain[0]) && Staged(fp.V(), fp.F())
    requires fp.sect != 0 && fp.bix == Sec(fp.fs.geo, fp.fptr) && Holds(fp.fs.geo, fp.chain, fp.clust, fp.bix)
    requires 0 < |d| && fp.fptr + |d| < TWO32
    modifies fp`dirty, fp`fptr, fp`objsize, fp.buf
    ensures fp.Open() && Placed(fp.fs.geo, fp.F())
    ensures |old(fp.Data())| == old(fp.objsize) && old(fp.fptr) <= old(fp.objsize)
    ensures 0 < wcnt <= |d| && fp.fptr == old(fp.fptr) + wcnt
    ensures fp.Data() == Overwrite(old(fp.Data()), old(fp.fptr), d[..wcnt])
  {
    hide FatFs.Ready, FatFs.Journaled, Traced, FatOf, Good, Staged, Content, Sec, FatFs.Img, MapPrefix, Placed, Holds;
    ghost var v, f := fp.V(), fp.F();
    StagedFacts(v, f);
    wcnt := CopyToBuf(fp, d);
    PutKeeps(v, f, d[..wcnt]);
    hide Off;
  }

  /** The copy itself, and the pointer and the size after it. */
  method CopyToBuf(fp: Fil, d: seq<byte>) returns (wcnt: nat)
    requires fp.fs.geo.ss > 0 && fp.buf.Length == fp.fs.geo.ss && 0 < |d|
    modifies fp`dirty, fp`fptr, fp`objsize, fp.buf
    ensures 0 < wcnt <= |d| && Off(fp.fs.geo, old(fp.fptr)) + wcnt <= fp.fs.geo.ss
    ensures fp.F() == Put(fp.fs.geo, old(fp.F()), d[..wcnt])
  {
    Arithmetic();
    hide Times, Quotient, Remainder;
    var ss := fp.fs.geo.ss;
    var at := fp.fptr % ss;
    wcnt := ss - at;
    if wcnt > |d| { wcnt := |d|; }
    ghost var was := fp.buf[..];
    CopyIn(fp.buf, at, d[..wcnt]);
    assert fp.buf[..] == Overwrite(was, at, d[..wcnt]);
    hide Overwrite, Sec;
    fp.dirty := true;
    fp.fptr := fp.fptr + wcnt;
    if fp.fptr > fp.objsize { fp.objsize := fp.fptr; }
  }

  lemma StagedFacts(v: Vol, f: File)
    requires Staged(v, f)
    ensures ValidSectorSize(v.g.ss) && v.g.ss > 0 && |f.buf| == v.g.ss && f.fptr <= f.objsize && |Content(v, f)| == f.objsize
  {
    GoodClusters(v, f.chain);
    ContentShape(v, f);
  }

  /** On a sector boundary: the place of the next byte, allocating if needed. */
  method SeekSectorForWrite(fp: Fil) returns (res: FResult, full: bool, sect: nat, csect: nat)
    requires fp.Open() && fp.err == Ok && Placed(fp.fs.geo, fp.F()) && Off(fp.fs.geo, fp.fptr) == 0
    modifies fp`clust, fp`sclust, fp`chain, fp`dirty
    modifies fp.fs`wflag, fp.fs`winsect, fp.fs`marks, fp.fs`bypass, fp.fs`log, fp.fs`fats, fp.fs`lastClst, fp.fs`freeClst, fp.fs`fsiDirty, fp.fs.win, fp.fs.disk
    ensures StaysSafe(fp.fs, res != DiskErr)
    ensures fp.Intact() && fp.fs.Grows()
    ensures res == Ok || (res == DiskErr && fp.fs.disk.mayFail)
    ensures res == Ok ==> fp.Open() && fp.Data() == old(fp.Data()) && Others(old(fp.V()), old(fp.chain), fp.V(), fp.chain)
    ensures res == Ok && full ==> Full(fp) && Placed(fp.fs.geo, fp.F())
    ensures res == Ok && !full ==>
      && !fp.dirty && Holds(fp.fs.geo, fp.chain, fp.clust, Sec(fp.fs.geo, fp.fptr)) && Sec(fp.fs.geo, fp.fptr) < SectorCount(fp.fs.geo, fp.chain)
      && sect == SectorOf(fp.fs.geo, fp.chain, Sec(fp.fs.geo, fp.fptr))
      && csect == InnerIndex(fp.fs.geo, Sec(fp.fs.geo, fp.fptr)) < fp.fs.geo.csize
    ensures old(fp.chain) <= fp.chain
  {
    hide AllWellFormed, TornLast;
    hide FatFs.Ready, FatFs.Journaled, Traced, FatOf, Good, Content, Sec, Off, InnerIndex, FatFs.Img, MapPrefix, SectorOf, SectorCount, ClusterIndex, Others, NoneFree, Full, BitAnd, Clust2Sect;
    res, full, sect, csect := Ok, false, 0, 0;
    ghost var v0, c0 := fp.V(), fp.chain;
    BoundaryMask(fp.V(), fp.F());
    OthersSame(v0, c0, v0);
    csect := BitAnd(fp.fptr / fp.fs.geo.ss, fp.fs.geo.csize - 1);
    if csect == 0 {
      res, full := EnterForWrite(fp);
      if res != Ok || full { return; }
    } else {
      GeoFacts(fp.V(), fp.F());
      if fp.fptr == 0 { FirstPos(fp.fs.geo); FirstInner(fp.fs.geo); }
      SameCluster(fp.fs.geo, fp.F());
      InnerSector(fp.V(), fp.F());
    }
    ghost var v1 := fp.V();
    res := FlushBuf(fp);
    OthersTrans(v0, c0, v1, fp.chain, fp.V(), fp.chain);
    if res != Ok { return; }
    CurrentSector(fp.V(), fp.F());
    sect := Clust2Sect(fp.fs.geo, fp.clust);
    if sect == 0 { res := IntErr; return; }
    sect := sect + csect;
  }

  /** Off a cluster boundary, a file position at or below the size is inside the clusters. */
  lemma InnerSector(v: Vol, f: File)
    requires Good(v, f) && f.fptr > 0 && Off(v.g, f.fptr) == 0 && InnerIndex(v.g, Sec(v.g, f.fptr)) != 0
    requires Holds(v.g, f.chain, f.clust, Sec(v.g, f.fptr))
    ensures Sec(v.g, f.fptr) < SectorCount(v.g, f.chain)
  {
    GeoFacts(v, f);
    hide Good, Sec, Off, InnerIndex;
    BoundarySector(v.g, f.chain, Sec(v.g, f.fptr));
  }

  /** One pass of the loop of `f_write`: wcnt bytes are taken, none if no cluster is left. */
  method WriteSome(fp: Fil, d: seq<byte>) returns (res: FResult, wcnt: nat)
    requires fp.Open() && fp.err == Ok && Placed(fp.fs.geo, fp.F())
    requires 0 < |d| && fp.fptr + |d| < TWO32
    modifies fp`clust, fp`sclust, fp`chain, fp`dirty, fp`sect, fp`bix, fp`fptr, fp`objsize, fp.buf
    modifies fp.fs`wflag, fp.fs`winsect, fp.fs`marks, fp.fs`bypass, fp.fs`log, fp.fs`fats, fp.fs`lastClst, fp.fs`freeClst, fp.fs`fsiDirty, fp.fs.win, fp.fs.disk
    ensures StaysSafe(fp.fs, res != DiskErr)
    ensures fp.Intact() && fp.fs.Grows()
    ensures res == Ok || (res == DiskErr && fp.fs.disk.mayFail)
    ensures res == Ok ==> fp.Open() && Placed(fp.fs.geo, fp.F()) && wcnt <= |d|
    ensures |old(fp.Data())| == old(fp.objsize) && old(fp.fptr) <= old(fp.objsize)
    ensures res == Ok ==> fp.fptr == old(fp.fptr) + wcnt && fp.Data() == Overwrite(old(fp.Data()), old(fp.fptr), d[..wcnt])
    ensures res == Ok && wcnt == 0 ==> Full(fp)
    ensures res == Ok ==> Others(old(fp.V()), old(fp.chain), fp.V(), fp.chain)
    ensures old(fp.chain) <= fp.chain
  {
    hide AllWellFormed, TornLast;
    hide FatFs.Ready, FatFs.Journaled, Traced, FatOf, Good, Content, Sec, Off, InnerIndex, FatFs.Img, MapPrefix, SectorOf, SectorCount, ClusterIndex, Others, NoneFree, Full, Placed, Holds, Overwrite, Whole, Staged;
    res, wcnt := Ok, 0;
    ghost var v0, c0, whole := fp.V(), fp.chain, fp.Data();
    GeoFacts(fp.V(), fp.F());
    BufFacts(fp.V(), fp.F());
    BoundaryMask(fp.V(), fp.F());
    OthersSame(v0, c0, v0);
    OverwriteNone(whole, fp.fptr, d);
    if fp.fptr % fp.fs.geo.ss == 0 {
      res, wcnt := WriteAtBoundary(fp, d);
    } else {
      MidSector(fp.V(), fp.F());
      GoodIsStaged(fp.V(), fp.F());
      wcnt := PutToBuf(fp, d);
    }
  }

  lemma OverwriteNone(s: seq<byte>, p: nat, d: seq<byte>)
    requires p <= |s|
    ensures Overwrite(s, p, d[..0]) == s
  {
  }

  method WriteAtBoundary(fp: Fil, d: seq<byte>) returns (res: FResult, wcnt: nat)
    requires fp.Open() && fp.err == Ok && Placed(fp.fs.geo, fp.F()) && Off(fp.fs.geo, fp.fptr) == 0
    requires 0 < |d| && fp.fptr + |d| < TWO32 && fp.fs.geo.ss > 0
    modifies fp`clust, fp`sclust, fp`chain, fp`dirty, fp`sect, fp`bix, fp`fptr, fp`objsize, fp.buf
    modifies fp.fs`wflag, fp.fs`winsect, fp.fs`marks, fp.fs`bypass, fp.fs`log, fp.fs`fats, fp.fs`lastClst, fp.fs`freeClst, fp.fs`fsiDirty, fp.fs.win, fp.fs.disk
    ensures StaysSafe(fp.fs, res != DiskErr)
    ensures fp.Intact() && fp.fs.Grows()
    ensures res == Ok || (res == DiskErr && fp.fs.disk.mayFail)
    ensures res == Ok ==> fp.Open() && Placed(fp.fs.geo, fp.F()) && wcnt <= |d|
    ensures |old(fp.Data())| == old(fp.objsize) && old(fp.fptr) <= old(fp.objsize)
    ensures res == Ok ==> fp.fptr == old(fp.fptr) + wcnt && fp.Data() == Overwrite(old(fp.Data()), old(fp.fptr), d[..wcnt])
    ensures res == Ok && wcnt == 0 ==> Full(fp)
    ensures res == Ok ==> Others(old(fp.V()), old(fp.chain), fp.V(), fp.chain)
    ensures old(fp.chain) <= fp.chain
  {
    hide AllWellFormed, TornLast;
    hide FatFs.Ready, FatFs.Journaled, Traced, FatOf, Good, Content, Sec, Off, InnerIndex, FatFs.Img, MapPrefix, SectorOf, SectorCount, ClusterIndex, Others, NoneFree, Full, Placed, Holds, Overwrite, Whole, Staged;
    ghost var v0, c0, whole := fp.V(), fp.chain, fp.Data();
    BufFacts(fp.V(), fp.F());
    OverwriteNone(whole, fp.fptr, d);
    var full, sect, csect;
    wcnt := 0;
    res, full, sect, csect := SeekSectorForWrite(fp);
    if res != Ok || full { return; }
    ghost var v1 := fp.V();
    var cc := Whole(|d|, fp.fs.geo.ss, csect, fp.fs.geo.csize);
    if cc > 0 {
      wcnt := fp.fs.geo.ss * cc;
      MulAtLeast(cc, fp.fs.geo.ss);
      res := WriteDirect(fp, d[..wcnt], sect, cc);
      OthersTrans2(v0, c0, v1, fp.chain, fp.V(), res == Ok);
    } else {
      res := StageForWrite(fp, sect);
      if res != Ok { return; }
      wcnt := PutToBuf(fp, d);
    }
  }

  lemma OthersTrans2(u: Vol, a: seq<nat>, v: Vol, b: seq<nat>, w: Vol, ok: bool)
    requires Others(u, a, v, b) && (ok ==> Others(v, b, w, b))
    ensures ok ==> Others(u, a, w, b)
  {
    if ok { OthersTrans(u, a, v, b, w, b); }
  }

  /** `f_write`: overwrites the file at the pointer and extends it at its end. Data past
      4 GiB - 1 is refused; a short count otherwise means no cluster was left. */
  method FWrite(fp: Fil, d: seq<byte>) returns (res: FResult, bw: nat)
    requires fp.Valid() && |d| < TWO32
    modifies fp`err, fp`modified
    modifies fp`clust, fp`sclust, fp`chain, fp`dirty, fp`sect, fp`bix, fp`fptr, fp`objsize, fp.buf
    modifies fp.fs`wflag, fp.fs`winsect, fp.fs`marks, fp.fs`bypass, fp.fs`log, fp.fs`fats, fp.fs`lastClst, fp.fs`freeClst, fp.fs`fsiDirty, fp.fs.win, fp.fs.disk
    ensures StaysSafe(fp.fs, res != DiskErr)
    ensures fp.Valid() && fp.fs.Grows() && bw <= |d|
    ensures old(fp.err) != Ok ==> res == old(fp.err) && bw == 0 && fp.err == old(fp.err)
    ensures old(fp.err) == Ok && !fp.canWrite ==> res == Denied && bw == 0 && fp.err == Ok && fp.F() == old(fp.F()) && fp.V() == old(fp.V())
    ensures old(fp.err) == Ok && fp.canWrite ==> res == fp.err && (res == Ok || (res == DiskErr && fp.fs.disk.mayFail))
    ensures res == Ok ==>
      && fp.fptr == old(fp.fptr) + bw && fp.modified && old(fp.fptr) <= |old(fp.Data())|
      && fp.Data() == old(fp.Data())[..old(fp.fptr)] + d[..bw] + (if fp.fptr <= |old(fp.Data())| then old(fp.Data())[fp.fptr..] else [])
      && (bw == |d| || old(fp.fptr) + bw == 0xFFFF_FFFF || Full(fp))
      && Others(old(fp.V()), old(fp.chain), fp.V(), fp.chain)
    ensures old(fp.chain) <= fp.chain
  {
    hide AllWellFormed, TornLast;
    hide FatFs.Ready, FatFs.Journaled, Traced, FatOf, Good, Content, Sec, Off, InnerIndex, FatFs.Img, MapPrefix, SectorOf, SectorCount, ClusterIndex, Others, NoneFree, Full, Placed, Holds, Overwrite;
    bw := 0;
    if fp.err != Ok { return fp.err, 0; }
    if !fp.canWrite { return Denied, 0; }
    GeoFacts(fp.V(), fp.F());
    BufFacts(fp.V(), fp.F());
    ghost var whole, p := fp.Data(), fp.fptr;
    var btw: nat := |d|;
    if U32(fp.fptr + btw) < fp.fptr { btw := 0xFFFF_FFFF - fp.fptr; }
    res, bw := WriteLoop(fp, d[..btw]);
    assert d[..btw][..bw] == d[..bw];
    OverwriteIs(whole, p, d[..bw]);
    if res != Ok {
      fp.err := res;
      return;
    }
    fp.modified := true;
  }

  /** The loop of `f_write`. */
  method WriteLoop(fp: Fil, d: seq<byte>) returns (res: FResult, bw: nat)
    requires fp.Open() && fp.err == Ok && Placed(fp.fs.geo, fp.F()) && fp.fptr + |d| < TWO32
    modifies fp`clust, fp`sclust, fp`chain, fp`dirty, fp`sect, fp`bix, fp`fptr, fp`objsize, fp.buf
    modifies fp.fs`wflag, fp.fs`winsect, fp.fs`marks, fp.fs`bypass, fp.fs`log, fp.fs`fats, fp.fs`lastClst, fp.fs`freeClst, fp.fs`fsiDirty, fp.fs.win, fp.fs.disk
    ensures StaysSafe(fp.fs, res != DiskErr)
    ensures fp.Intact() && fp.fs.Grows() && bw <= |d|
    ensures res == Ok || (res == DiskErr && fp.fs.disk.mayFail)
    ensures |old(fp.Data())| >= old(fp.fptr)
    ensures res == Ok ==>
      && fp.Open() && Placed(fp.fs.geo, fp.F())
      && fp.Data() == Overwrite(old(fp.Data()), old(fp.fptr), d[..bw])
      && fp.fptr == old(fp.fptr) + bw
      && (bw == |d| || Full(fp))
      && Others(old(fp.V()), old(fp.chain), fp.V(), fp.chain)
    ensures old(fp.chain) <= fp.chain
  {
    hide AllWellFormed, TornLast;
    hide FatFs.Ready, FatFs.Journaled, Traced, FatOf, Good, Content, Sec, Off, InnerIndex, FatFs.Img, MapPrefix, SectorOf, SectorCount, ClusterIndex, Others, NoneFree, Full, Placed, Holds, Overwrite;
    bw := 0;
    BufFacts(fp.V(), fp.F());
    ghost var v0, c0, whole, p := fp.V(), fp.chain, fp.Data(), fp.fptr;
    OthersSame(v0, c0, v0);
    OverwriteNone(whole, p, d);
    res := Ok;
    while bw < |d|
      invariant old(AllWellFormed(fp.fs.fats)) ==> AllWellFormed(fp.fs.fats)
      invariant bw <= |d| && fp.Open() && Placed(fp.fs.geo, fp.F()) && fp.fs.Grows() && fp.err == Ok && res == Ok
      invariant fp.fptr == p + bw
      invariant fp.Data() == Overwrite(whole, p, d[..bw])
      invariant Others(v0, c0, fp.V(), fp.chain) && c0 <= fp.chain
    {
      ghost var v1, c1 := fp.V(), fp.chain;
      var wcnt;
      res, wcnt := WriteSome(fp, d[bw..]);
      OthersTrans3(v0, c0, v1, c1, fp.V(), fp.chain, res == Ok);
      if res != Ok { return; }
      OverwriteTwice(whole, p, d, bw, wcnt);
      if wcnt == 0 { break; }
      bw := bw + wcnt;
    }
  }

  lemma OthersTrans3(u: Vol, a: seq<nat>, v: Vol, b: seq<nat>, w: Vol, c: seq<nat>, ok: bool)
    requires Others(u, a, v, b) && (ok ==> Others(v, b, w, c))
    ensures ok ==> Others(u, a, w, c)
  {
    if ok { OthersTrans(u, a, v, b, w, c); }
  }

  lemma OverwriteTwice(s: seq<byte>, p: nat, d: seq<byte>, m: nat, w: nat)
    requires p <= |s| && m + w <= |d|
    ensures p + m <= |Overwrite(s, p, d[..m])|
    ensures Overwrite(Overwrite(s, p, d[..m]), p + m, d[m..][..w]) == Overwrite(s, p, d[..m + w])
  {
    assert d[m..][..w] == d[m..m + w];
  }
}
