/** An open file as a value: its chain, size, pointer and private sector buffer, over a
    volume. The steps of f_read, f_write and f_lseek are transitions of this value. */
module FileModel {
  import opened Arith
  import opened Bytes
  import opened ChainEdits
  import opened Chains
  import opened FatEntries
  import opened FileBytes
  import opened FileLayout
  import opened Geometry
  import opened Media

  datatype Vol = Vol(g: Geo, img: Image, winsect: nat)

  datatype File = File(
    chain: seq<nat>, // the clusters of the file
    objsize: nat,
    fptr: nat,
    clust: nat,      // current cluster
    sect: nat,       // sector in buf, 0 none
    bix: nat,        // which sector of the file that is
    dirty: bool,
    buf: seq<byte>)

  /** Sector and offset of a file position. */
  function Sec(g: Geo, p: nat): nat
  {
    if g.ss > 0 then Quotient(p, g.ss) else 0
  }

  function Off(g: Geo, p: nat): nat
  {
    if g.ss > 0 then Remainder(p, g.ss) else 0
  }

  lemma PosSplit(g: Geo, p: nat)
    requires g.ss > 0
    ensures p == Sec(g, p) * g.ss + Off(g, p) && Off(g, p) < g.ss
  {
    Arithmetic();
    hide Times, Quotient, Remainder;
  }

  lemma PosOf(g: Geo, k: nat, r: nat)
    requires r < g.ss
    ensures Sec(g, k * g.ss + r) == k && Off(g, k * g.ss + r) == r
  {
    Arithmetic();
    hide Times, Quotient, Remainder;
    DivUnique(k * g.ss + r, g.ss, k, r);
  }

  /** Byte b of cluster i of a file. */
  lemma ClusterPos(g: Geo, i: nat, b: nat)
    requires ValidSectorSize(g.ss) && g.csize > 0
    ensures Sec(g, i * g.ClusterBytes() + b) == i * g.csize + b / g.ss
    ensures Off(g, i * g.ClusterBytes() + b) == b % g.ss
  {
    Arithmetic();
    hide Times, Quotient, Remainder;
    var k, r := b / g.ss, b % g.ss;
    assert i * g.ClusterBytes() + b == (i * g.csize + k) * g.ss + r by {
      assert b == k * g.ss + r;
      assert i * (g.csize * g.ss) == i * g.csize * g.ss;
      assert (i * g.csize + k) * g.ss == i * g.csize * g.ss + k * g.ss;
    }
    PosOf(g, i * g.csize + k, r);
  }

  /** The window holds no sector of the file's clusters or of a free cluster. */
  ghost predicate WindowApart(g: Geo, fat: FatMap, chain: seq<nat>, winsect: nat)
    requires |fat| == g.nFatent
  {
    forall c: nat :: g.ValidCluster(c) && g.InCluster(winsect, c) ==> fat[c] != 0 && c !in chain
  }

  ghost predicate GoodVol(v: Vol, chain: seq<nat>)
  {
    && Shaped(v.g, v.img)
    && WellFormed(FatOf(v.g, v.img))
    && (chain != [] ==> IsChain(FatOf(v.g, v.img), chain))
    && WindowApart(v.g, FatOf(v.g, v.img), chain, v.winsect)
  }

  ghost predicate Buffered(g: Geo, f: File)
  {
    && |f.buf| == g.ss
    && (f.sect != 0 ==> f.bix < SectorCount(g, f.chain) && f.sect == SectorOf(g, f.chain, f.bix))
    && (f.dirty ==> f.sect != 0)
    && (Off(g, f.fptr) != 0 ==> f.sect != 0 && f.bix == Sec(g, f.fptr))
  }

  ghost predicate Sized(g: Geo, chain: seq<nat>, objsize: nat, fptr: nat)
  {
    && objsize <= Times(SectorCount(g, chain), g.ss)
    && objsize < TWO32
    && fptr <= objsize
  }

  /** Everything but that a clean buffer repeats the medium. */
  ghost predicate Staged(v: Vol, f: File)
  {
    GoodVol(v, f.chain) && Buffered(v.g, f) && Sized(v.g, f.chain, f.objsize, f.fptr)
  }

  ghost predicate Clean(v: Vol, f: File)
  {
    f.sect != 0 && !f.dirty ==> f.sect < |v.img| && f.buf == v.img[f.sect]
  }

  ghost predicate Good(v: Vol, f: File)
  {
    Staged(v, f) && Clean(v, f)
  }

  /** The current cluster holds the byte before the pointer. */
  ghost predicate Placed(g: Geo, f: File)
  {
    f.fptr > 0 ==> Holds(g, f.chain, f.clust, Sec(g, f.fptr - 1))
  }

  /** The current cluster holds sector k of the file. */
  ghost predicate Holds(g: Geo, chain: seq<nat>, clust: nat, k: nat)
  {
    ClusterIndex(g, k) < |chain| && clust == chain[ClusterIndex(g, k)]
  }

  /** The sectors of the file with the buffer laid over them. */
  ghost function Sectors(v: Vol, f: File): seq<Sector>
  {
    if f.sect != 0 && f.bix < SectorCount(v.g, f.chain) then View(v.g, v.img, f.chain)[f.bix := f.buf]
    else View(v.g, v.img, f.chain)
  }

  /** What the file holds: its first objsize bytes. */
  ghost function Content(v: Vol, f: File): seq<byte>
  {
    var bytes := Flat(Sectors(v, f));
    if f.objsize <= |bytes| then bytes[..f.objsize] else bytes
  }

  lemma GoodClusters(v: Vol, chain: seq<nat>)
    requires GoodVol(v, chain)
    ensures Clusters(v.g, chain) && v.g.Sound() && v.g.FsInfoApart() && v.g.End() <= |v.img|
    ensures ValidSectorSize(v.g.ss) && 0 < v.g.csize <= 128 && IsPow2(v.g.csize)
  {
    hide WellFormed;
    if chain != [] { ChainIsDistinct(FatOf(v.g, v.img), chain); }
  }

  lemma ContentShape(v: Vol, f: File)
    requires Staged(v, f)
    ensures Uniform(Sectors(v, f), v.g.ss) && |Sectors(v, f)| == SectorCount(v.g, f.chain)
    ensures |Flat(Sectors(v, f))| == SectorCount(v.g, f.chain) * v.g.ss
    ensures f.fptr <= f.objsize <= |Flat(Sectors(v, f))|
    ensures Content(v, f) == Flat(Sectors(v, f))[..f.objsize] && |Content(v, f)| == f.objsize
  {
    Arithmetic();
    hide Times, Quotient, Remainder;
    GoodClusters(v, f.chain);
    ViewUniform(v.g, v.img, f.chain);
    hide WellFormed, GoodVol, View;
    FlatLength(Sectors(v, f), v.g.ss);
  }

  /** Data written to a run of the file's own sectors leaves the FAT and the window alone. */
  lemma DataWrite(v: Vol, chain: seq<nat>, k: nat, data: seq<Sector>)
    requires GoodVol(v, chain) && k < SectorCount(v.g, chain)
    requires InnerIndex(v.g, k) + |data| <= v.g.csize && Uniform(data, v.g.ss)
    ensures k + |data| <= SectorCount(v.g, chain) && SectorOf(v.g, chain, k) + |data| <= |v.img|
    ensures var w := v.(img := Splice(v.img, SectorOf(v.g, chain, k), data));
      && GoodVol(w, chain) && FatOf(w.g, w.img) == FatOf(v.g, v.img)
      && View(w.g, w.img, chain) == Splice(View(v.g, v.img, chain), k, data)
  {
    GoodClusters(v, chain);
    Bounds(v.g);
    ViewSplice(v.g, v.img, chain, k, data);
    SectorPlace(v.g, chain, k);
    var s := SectorOf(v.g, chain, k);
    var img := Splice(v.img, s, data);
    hide WellFormed, IsChain, WindowApart, View, FatOf;
    SpliceShape(v.g, v.img, s, data);
    FatFrame(v.g, v.img, img);
  }

  lemma SpliceShape(g: Geo, img: Image, s: nat, data: seq<Sector>)
    requires Shaped(g, img) && g.database <= s && s + |data| <= |img| && Uniform(data, g.ss)
    ensures Shaped(g, Splice(img, s, data))
    ensures forall t :: 0 <= t < |img| && g.InFat(t) ==> Splice(img, s, data)[t] == img[t]
  {
    Bounds(g);
    hide Geo.Sound;
  }

  lemma SpliceInside(g: Geo, img: Image, chain: seq<nat>, k: nat, data: seq<Sector>)
    requires g.Sound() && Clusters(g, chain) && k < SectorCount(g, chain)
    requires InnerIndex(g, k) + |data| <= g.csize && SectorOf(g, chain, k) + |data| <= |img|
    ensures forall t :: 0 <= t < |img| && !InChain(g, chain, t) ==> Splice(img, SectorOf(g, chain, k), data)[t] == img[t]
  {
    var s := SectorOf(g, chain, k);
    SectorRun(g, chain, k, |data|);
    hide Geo.Sound, SectorOf, InChain, InnerIndex;
    forall t | 0 <= t < |img| && !InChain(g, chain, t) ensures Splice(img, s, data)[t] == img[t] {
      if s <= t < s + |data| {
        assert SectorOf(g, chain, k + (t - s)) == t;
        SectorPlace(g, chain, k + (t - s));
      }
    }
  }

  // ----- the steps

  /** Writing back the dirty buffer changes nothing the file holds. */
  lemma WriteBackKeeps(v: Vol, f: File)
    requires Good(v, f) && f.dirty
    ensures f.sect < |v.img|
    ensures var w, h := v.(img := v.img[f.sect := f.buf]), f.(dirty := false);
      Good(w, h) && Content(w, h) == Content(v, f)
  {
    WriteBackMedium(v, f);
    var w, h := v.(img := v.img[f.sect := f.buf]), f.(dirty := false);
    hide GoodVol, View, SectorOf, Sized, Sec, Off, SectorCount, Flat;
    assert Sectors(w, h) == Sectors(v, f);
  }

  lemma WriteBackMedium(v: Vol, f: File)
    requires Good(v, f) && f.dirty
    ensures f.sect < |v.img| && f.sect >= v.g.database
    ensures var w := v.(img := v.img[f.sect := f.buf]);
      && GoodVol(w, f.chain)
      && View(w.g, w.img, f.chain) == View(v.g, v.img, f.chain)[f.bix := f.buf]
      && FatOf(w.g, w.img) == FatOf(v.g, v.img)
    ensures InChain(v.g, f.chain, f.sect)
  {
    hide GoodVol, WellFormed, View, FatOf, Flat, SectorOf, InChain, Sized, Sec, Off, SectorCount, Shaped, Geo.Sound;
    GoodClusters(v, f.chain);
    SectorPlace(v.g, f.chain, f.bix);
    assert v.img[f.sect := f.buf] == Splice(v.img, f.sect, [f.buf]);
    DataWrite(v, f.chain, f.bix, [f.buf]);
  }

  /** Loading another sector of the file into a clean buffer. */
  lemma LoadKeeps(v: Vol, f: File, k: nat)
    requires Good(v, f) && !f.dirty && k < SectorCount(v.g, f.chain)
    requires Off(v.g, f.fptr) == 0 || k == Sec(v.g, f.fptr)
    ensures SectorOf(v.g, f.chain, k) < |v.img|
    ensures var h := f.(sect := SectorOf(v.g, f.chain, k), bix := k, buf := v.img[SectorOf(v.g, f.chain, k)]);
      Good(v, h) && Content(v, h) == Content(v, f)
  {
    GoodClusters(v, f.chain);
    SectorPlace(v.g, f.chain, k);
    ViewUniform(v.g, v.img, f.chain);
    CleanView(v, f);
    hide WellFormed, FatOf, Flat, GoodVol;
    var h := f.(sect := SectorOf(v.g, f.chain, k), bix := k, buf := v.img[SectorOf(v.g, f.chain, k)]);
    assert h.buf == View(v.g, v.img, f.chain)[k];
    CleanView(v, h);
  }

  /** A clean buffer repeats the medium. */
  lemma CleanView(v: Vol, f: File)
    requires Clean(v, f) && !f.dirty && Buffered(v.g, f)
    ensures Sectors(v, f) == View(v.g, v.img, f.chain)
  {
    hide SectorOf;
  }

  /** Pointing a clean buffer at the sector about to be written; on the growing edge its
      bytes are left stale. */
  lemma StageKeeps(v: Vol, f: File, k: nat, bytes: seq<byte>)
    requires Good(v, f) && !f.dirty && k < SectorCount(v.g, f.chain)
    requires Off(v.g, f.fptr) == 0 && k == Sec(v.g, f.fptr) && |bytes| == v.g.ss
    requires f.fptr < f.objsize ==> SectorOf(v.g, f.chain, k) < |v.img| && bytes == v.img[SectorOf(v.g, f.chain, k)]
    ensures var h := f.(sect := SectorOf(v.g, f.chain, k), bix := k, buf := bytes);
      Staged(v, h) && Content(v, h) == Content(v, f)
  {
    var h := f.(sect := SectorOf(v.g, f.chain, k), bix := k, buf := bytes);
    if f.fptr < f.objsize {
      LoadKeeps(v, f, k);
    } else {
      GoodClusters(v, f.chain);
      SectorPlace(v.g, f.chain, k);
      PosSplit(v.g, f.fptr);
      hide WellFormed, FatOf, Flat, GoodVol, View, SectorOf;
      ContentShape(v, f);
      ContentShape(v, h);
      CleanView(v, f);
      FlatPrefix(Sectors(v, f), Sectors(v, h), k, v.g.ss, f.objsize);
    }
  }

  /** Copying bytes into the staged buffer. */
  function Put(g: Geo, f: File, d: seq<byte>): File
    requires Off(g, f.fptr) <= |f.buf|
  {
    f.(buf := Overwrite(f.buf, Off(g, f.fptr), d), dirty := true,
       fptr := f.fptr + |d|, objsize := Larger(f.objsize, f.fptr + |d|))
  }

  lemma PutKeeps(v: Vol, f: File, d: seq<byte>)
    requires Staged(v, f) && f.sect != 0 && f.bix == Sec(v.g, f.fptr)
    requires 0 < |d| && Off(v.g, f.fptr) + |d| <= v.g.ss && f.fptr + |d| < TWO32
    requires Holds(v.g, f.chain, f.clust, f.bix)
    ensures Good(v, Put(v.g, f, d)) && Placed(v.g, Put(v.g, f, d))
    ensures |Content(v, f)| == f.objsize && Content(v, Put(v.g, f, d)) == Overwrite(Content(v, f), f.fptr, d)
  {
    GoodClusters(v, f.chain);
    PutStaged(v, f, d);
    PutContent(v, f, d);
    hide Staged, Content, Holds, Off, Overwrite;
  }

  lemma PutStaged(v: Vol, f: File, d: seq<byte>)
    requires Staged(v, f) && f.sect != 0 && f.bix == Sec(v.g, f.fptr)
    requires 0 < |d| && Off(v.g, f.fptr) + |d| <= v.g.ss && f.fptr + |d| < TWO32
    requires Holds(v.g, f.chain, f.clust, f.bix)
    ensures Staged(v, Put(v.g, f, d)) && Placed(v.g, Put(v.g, f, d))
  {
    var g := v.g;
    var k, r := f.bix, Off(g, f.fptr);
    hide GoodVol, SectorOf;
    assert ValidSectorSize(g.ss) by { GoodClusters(v, f.chain); }
    PosSplit(g, f.fptr);
    PutPos(g, k, r, |d|);
    OverwriteLength(f.buf, r, d);
    NewSize(g, f, k, r, |d|);
    hide Sec, Off, Overwrite, SectorCount, Sized, ClusterIndex;
  }

  lemma PutContent(v: Vol, f: File, d: seq<byte>)
    requires Staged(v, f) && f.sect != 0 && f.bix == Sec(v.g, f.fptr)
    requires Off(v.g, f.fptr) + |d| <= v.g.ss && |f.buf| == v.g.ss
    requires Staged(v, Put(v.g, f, d))
    ensures |Content(v, f)| == f.objsize && Content(v, Put(v.g, f, d)) == Overwrite(Content(v, f), f.fptr, d)
  {
    hide GoodVol, FatOf, View, SectorOf, Overwrite, Flat, Uniform, Sized;
    var g, h := v.g, Put(v.g, f, d);
    GoodClusters(v, f.chain);
    PosSplit(g, f.fptr);
    ContentShape(v, f);
    ContentShape(v, h);
    hide Sec, Off, Content;
    PatchFile(Sectors(v, f), f.bix, Off(g, f.fptr), d, g.ss, f.objsize, f.fptr);
    assert Sectors(v, f)[f.bix] == f.buf;
    assert Sectors(v, h) == Sectors(v, f)[f.bix := h.buf];
  }

  lemma NewSize(g: Geo, f: File, k: nat, r: nat, n: nat)
    requires Sized(g, f.chain, f.objsize, f.fptr) && k < SectorCount(g, f.chain)
    requires f.fptr == k * g.ss + r && r + n <= g.ss && f.fptr + n < TWO32
    ensures Sized(g, f.chain, Larger(f.objsize, f.fptr + n), f.fptr + n)
  {
    Arithmetic();
    hide Times, Quotient, Remainder;
    SectorEnd(g, f.chain, k);
  }

  lemma OverwriteLength(s: seq<byte>, p: nat, d: seq<byte>)
    requires p + |d| <= |s|
    ensures |Overwrite(s, p, d)| == |s|
  {
  }

  lemma SectorEnd(g: Geo, chain: seq<nat>, k: nat)
    requires k < SectorCount(g, chain)
    ensures k * g.ss + g.ss <= SectorCount(g, chain) * g.ss
  {
    MulMono(k + 1, SectorCount(g, chain), g.ss);
    assert (k + 1) * g.ss == k * g.ss + g.ss;
  }

  lemma PutPos(g: Geo, k: nat, r: nat, n: nat)
    requires 0 < n && r + n <= g.ss
    ensures Sec(g, k * g.ss + r + n - 1) == k
    ensures Off(g, k * g.ss + r + n) != 0 ==> Sec(g, k * g.ss + r + n) == k
  {
    PosOf(g, k, r + n - 1);
    if r + n < g.ss {
      PosOf(g, k, r + n);
    } else {
      assert k * g.ss + r + n == (k + 1) * g.ss + 0;
      PosOf(g, k + 1, 0);
    }
  }

  /** Transferring whole sectors straight from the caller's memory; a buffered sector
      inside the run is refilled from the new data. */
  function Direct(g: Geo, f: File, n: nat, d: seq<byte>): File
    requires |d| == n * g.ss
  {
    var k := Sec(g, f.fptr);
    f.(buf := if f.sect != 0 && k <= f.bix < k + n then Chop(d, n, g.ss)[f.bix - k] else f.buf,
       fptr := f.fptr + |d|, objsize := Larger(f.objsize, f.fptr + |d|))
  }

  ghost function DirectVol(v: Vol, f: File, n: nat, d: seq<byte>): Vol
    requires |d| == n * v.g.ss && SectorOf(v.g, f.chain, Sec(v.g, f.fptr)) + n <= |v.img|
  {
    v.(img := Splice(v.img, SectorOf(v.g, f.chain, Sec(v.g, f.fptr)), Chop(d, n, v.g.ss)))
  }

  lemma DirectKeeps(v: Vol, f: File, n: nat, d: seq<byte>)
    requires Good(v, f) && !f.dirty && Off(v.g, f.fptr) == 0 && |d| == n * v.g.ss && n > 0
    requires Sec(v.g, f.fptr) < SectorCount(v.g, f.chain) && InnerIndex(v.g, Sec(v.g, f.fptr)) + n <= v.g.csize
    requires f.fptr + |d| < TWO32 && Holds(v.g, f.chain, f.clust, Sec(v.g, f.fptr))
    ensures SectorOf(v.g, f.chain, Sec(v.g, f.fptr)) + n <= |v.img|
    ensures Good(DirectVol(v, f, n, d), Direct(v.g, f, n, d)) && Placed(v.g, Direct(v.g, f, n, d))
    ensures FatOf(v.g, DirectVol(v, f, n, d).img) == FatOf(v.g, v.img)
    ensures |Content(v, f)| == f.objsize
    ensures Content(DirectVol(v, f, n, d), Direct(v.g, f, n, d)) == Overwrite(Content(v, f), f.fptr, d)
  {
    hide GoodVol, View, FatOf, Flat, SectorOf, Sized, Sec, Off, SectorCount, InnerIndex, Chop, Sectors, Content, Overwrite;
    var k := Sec(v.g, f.fptr);
    GoodClusters(v, f.chain);
    DataWrite(v, f.chain, k, Chop(d, n, v.g.ss));
    DirectStaged(v, f, n, d);
    DirectClean(v, f, n, d);
    DirectContent(v, f, n, d);
  }

  lemma DirectStaged(v: Vol, f: File, n: nat, d: seq<byte>)
    requires Good(v, f) && !f.dirty && Off(v.g, f.fptr) == 0 && |d| == n * v.g.ss && n > 0
    requires Sec(v.g, f.fptr) + n <= SectorCount(v.g, f.chain) && InnerIndex(v.g, Sec(v.g, f.fptr)) + n <= v.g.csize
    requires f.fptr + |d| < TWO32 && Holds(v.g, f.chain, f.clust, Sec(v.g, f.fptr))
    ensures Buffered(v.g, Direct(v.g, f, n, d)) && Placed(v.g, Direct(v.g, f, n, d))
    ensures var h := Direct(v.g, f, n, d); Sized(v.g, h.chain, h.objsize, h.fptr)
  {
    hide GoodVol, SectorOf, SectorCount, ClusterIndex, InnerIndex, Sec, Off, Chop, Sized;
    GoodClusters(v, f.chain);
    RunEnd(v.g, f, n);
    RunSize(v.g, f, n, d);
  }

  lemma RunEnd(g: Geo, f: File, n: nat)
    requires n > 0 && ValidSectorSize(g.ss) && g.csize > 0 && Off(g, f.fptr) == 0
    requires InnerIndex(g, Sec(g, f.fptr)) + n <= g.csize
    ensures Off(g, f.fptr + n * g.ss) == 0 && Sec(g, f.fptr + n * g.ss) == Sec(g, f.fptr) + n
    ensures f.fptr + n * g.ss > 0
    ensures ClusterIndex(g, Sec(g, f.fptr + n * g.ss - 1)) == ClusterIndex(g, Sec(g, f.fptr))
  {
    var k := Sec(g, f.fptr);
    PosSplit(g, f.fptr);
    RunPos(g, k, n);
    hide Sec, Off, ClusterIndex, InnerIndex;
    IndexSplit(g, k);
    IndexOf(g, ClusterIndex(g, k), InnerIndex(g, k) + (n - 1));
    assert ClusterIndex(g, k) * g.csize + (InnerIndex(g, k) + (n - 1)) == k + n - 1;
  }

  lemma RunPos(g: Geo, k: nat, n: nat)
    requires n > 0 && ValidSectorSize(g.ss)
    ensures k * g.ss + n * g.ss > 0
    ensures Off(g, k * g.ss + n * g.ss) == 0 && Sec(g, k * g.ss + n * g.ss) == k + n
    ensures Sec(g, k * g.ss + n * g.ss - 1) == k + n - 1
  {
    Distribute(k, n, g.ss);
    hide Sec, Off;
    PosOf(g, k + n, 0);
    PosOf(g, k + n - 1, g.ss - 1);
  }

  lemma Distribute(k: nat, n: nat, ss: nat)
    requires n > 0 && ss > 0
    ensures k * ss + n * ss == (k + n) * ss > 0 && (k + n - 1) * ss == (k + n) * ss - ss
  {
    MulAtLeast(k + n, ss);
  }

  lemma RunSize(g: Geo, f: File, n: nat, d: seq<byte>)
    requires |d| == n * g.ss && ValidSectorSize(g.ss) && Off(g, f.fptr) == 0
    requires Sec(g, f.fptr) + n <= SectorCount(g, f.chain)
    requires Sized(g, f.chain, f.objsize, f.fptr) && f.fptr + |d| < TWO32
    ensures Sized(g, f.chain, Larger(f.objsize, f.fptr + |d|), f.fptr + |d|)
  {
    Arithmetic();
    hide Times, Quotient, Remainder;
    var k := Sec(g, f.fptr);
    PosSplit(g, f.fptr);
    hide Sec, Off, SectorCount;
    assert k * g.ss + n * g.ss == (k + n) * g.ss;
    MulMono(k + n, SectorCount(g, f.chain), g.ss);
  }

  lemma DirectClean(v: Vol, f: File, n: nat, d: seq<byte>)
    requires Good(v, f) && !f.dirty && |d| == n * v.g.ss && n > 0
    requires Sec(v.g, f.fptr) + n <= SectorCount(v.g, f.chain) && InnerIndex(v.g, Sec(v.g, f.fptr)) + n <= v.g.csize
    requires SectorOf(v.g, f.chain, Sec(v.g, f.fptr)) + n <= |v.img|
    ensures Clean(DirectVol(v, f, n, d), Direct(v.g, f, n, d))
  {
    hide GoodVol, SectorOf, SectorCount, InnerIndex, Sec, Off, Chop, Sized, Geo.Sound, Shaped;
    var g, k := v.g, Sec(v.g, f.fptr);
    GoodClusters(v, f.chain);
    if f.sect != 0 { BufferInRun(g, f, k, n); }
  }

  /** The unsigned difference of the buffered sector and the first of the run finds exactly a buffered sector of the run. */
  lemma BufferInRun(g: Geo, f: File, k: nat, n: nat)
    requires g.Sound() && Clusters(g, f.chain) && k + n <= SectorCount(g, f.chain) && InnerIndex(g, k) + n <= g.csize && n > 0
    requires f.sect != 0 ==> f.bix < SectorCount(g, f.chain) && f.sect == SectorOf(g, f.chain, f.bix)
    ensures U32(f.sect - SectorOf(g, f.chain, k)) < n <==> f.sect != 0 && k <= f.bix < k + n
    ensures f.sect != 0 && k <= f.bix < k + n ==> f.sect == SectorOf(g, f.chain, k) + (f.bix - k)
    ensures f.sect != 0 && !(k <= f.bix < k + n) ==> !(SectorOf(g, f.chain, k) <= f.sect < SectorOf(g, f.chain, k) + n)
  {
    hide SectorOf, SectorCount, InnerIndex, Geo.Sound, InChain, ClusterIndex, Clusters, ClusterBase;
    var s := SectorOf(g, f.chain, k);
    SectorRun(g, f.chain, k, n);
    if f.sect != 0 {
      if s <= f.sect < s + n {
        assert SectorOf(g, f.chain, k + (f.sect - s)) == f.sect;
        SectorInjective(g, f.chain, f.bix, k + (f.sect - s));
      }
    }
    assert 0 < s && s + n < TWO32 && f.sect < TWO32 by {
      Bounds(g);
      SectorPlace(g, f.chain, k);
      if f.sect != 0 { SectorPlace(g, f.chain, f.bix); }
    }
    WrapTest(f.sect, s, n);
  }

  lemma WrapTest(a: nat, s: nat, n: nat)
    requires a < TWO32 && s + n < TWO32
    ensures U32(a - s) < n <==> s <= a < s + n
  {
  }

  lemma DirectContent(v: Vol, f: File, n: nat, d: seq<byte>)
    requires Good(v, f) && !f.dirty && Off(v.g, f.fptr) == 0 && |d| == n * v.g.ss && n > 0
    requires Sec(v.g, f.fptr) + n <= SectorCount(v.g, f.chain)
    requires SectorOf(v.g, f.chain, Sec(v.g, f.fptr)) + n <= |v.img|
    requires Good(DirectVol(v, f, n, d), Direct(v.g, f, n, d))
    requires View(v.g, DirectVol(v, f, n, d).img, f.chain) == Splice(View(v.g, v.img, f.chain), Sec(v.g, f.fptr), Chop(d, n, v.g.ss))
    ensures |Content(v, f)| == f.objsize
    ensures Content(DirectVol(v, f, n, d), Direct(v.g, f, n, d)) == Overwrite(Content(v, f), f.fptr, d)
  {
    hide Times, Quotient, Remainder;
    var g, k := v.g, Sec(v.g, f.fptr);
    var w, h := DirectVol(v, f, n, d), Direct(g, f, n, d);
    GoodClusters(v, f.chain);
    PosSplit(g, f.fptr);
    hide GoodVol, View, FatOf, Flat, SectorOf, Sec, Off, InnerIndex, Chop, Overwrite, Uniform, Splice;
    CleanView(v, f);
    CleanView(w, h);
    ContentShape(v, f);
    ContentShape(w, h);
    hide Content;
    SpliceFile(Sectors(v, f), k, n, d, g.ss, f.objsize, f.fptr);
  }

  // ----- reading

  /** The medium's sectors of a run, with a dirty buffered sector copied over them. */
  ghost function RunData(v: Vol, f: File, n: nat): seq<Sector>
    requires SectorOf(v.g, f.chain, Sec(v.g, f.fptr)) + n <= |v.img|
  {
    var s, k := SectorOf(v.g, f.chain, Sec(v.g, f.fptr)), Sec(v.g, f.fptr);
    var raw := v.img[s..s + n];
    if f.dirty && k <= f.bix < k + n then raw[f.bix - k := f.buf] else raw
  }

  /** What `f_read` hands over for a run of whole sectors is that slice of the file. */
  lemma ReadRun(v: Vol, f: File, n: nat, len: nat)
    requires Good(v, f) && Off(v.g, f.fptr) == 0 && n > 0 && len == n * v.g.ss && f.fptr + len <= f.objsize
    requires Sec(v.g, f.fptr) < SectorCount(v.g, f.chain) && InnerIndex(v.g, Sec(v.g, f.fptr)) + n <= v.g.csize
    ensures SectorOf(v.g, f.chain, Sec(v.g, f.fptr)) + n <= |v.img|
    ensures |Content(v, f)| == f.objsize
    ensures Flat(RunData(v, f, n)) == Content(v, f)[f.fptr..f.fptr + len]
  {
    hide GoodVol, FatOf, Flat, SectorOf, View, Sized, Uniform, SectorCount, InnerIndex, RunData, Sectors;
    RunSectors(v, f, n);
    ContentShape(v, f);
    GoodClusters(v, f.chain);
    PosSplit(v.g, f.fptr);
    hide Sec, Off, Content;
    SliceOfRun(Sectors(v, f), Sec(v.g, f.fptr), n, v.g.ss, f.objsize, f.fptr);
  }

  lemma RunSectors(v: Vol, f: File, n: nat)
    requires Good(v, f)
    requires Sec(v.g, f.fptr) < SectorCount(v.g, f.chain) && InnerIndex(v.g, Sec(v.g, f.fptr)) + n <= v.g.csize
    ensures Sec(v.g, f.fptr) + n <= SectorCount(v.g, f.chain)
    ensures SectorOf(v.g, f.chain, Sec(v.g, f.fptr)) + n <= |v.img|
    ensures |Sectors(v, f)| == SectorCount(v.g, f.chain)
    ensures RunData(v, f, n) == Sectors(v, f)[Sec(v.g, f.fptr)..Sec(v.g, f.fptr) + n]
  {
    hide GoodVol, FatOf, SectorOf, Sec, Off, InnerIndex, View, Sized;
    GoodClusters(v, f.chain);
    var k := Sec(v.g, f.fptr);
    ViewRun(v.g, v.img, f.chain, k, n);
    RunWithBuffer(v, f, k, n);
  }

  lemma RunWithBuffer(v: Vol, f: File, k: nat, n: nat)
    requires Clean(v, f) && Buffered(v.g, f) && k + n <= SectorCount(v.g, f.chain)
    ensures var raw := View(v.g, v.img, f.chain)[k..k + n];
      (if f.dirty && k <= f.bix < k + n then raw[f.bix - k := f.buf] else raw) == Sectors(v, f)[k..k + n]
  {
    if !f.dirty { CleanView(v, f); }
  }

  /** Bytes taken from the buffer are the file's bytes at the pointer. */
  lemma ReadPart(v: Vol, f: File, w: nat)
    requires Staged(v, f) && f.sect != 0 && f.bix == Sec(v.g, f.fptr)
    requires Off(v.g, f.fptr) + w <= v.g.ss && f.fptr + w <= f.objsize
    ensures |Content(v, f)| == f.objsize
    ensures f.buf[Off(v.g, f.fptr)..Off(v.g, f.fptr) + w] == Content(v, f)[f.fptr..f.fptr + w]
  {
    hide GoodVol, FatOf, Flat, SectorOf, View, Sized, Uniform;
    ContentShape(v, f);
    GoodClusters(v, f.chain);
    PosSplit(v.g, f.fptr);
    hide Sec, Off, Content;
    assert Sectors(v, f)[f.bix] == f.buf;
    SliceOfPart(Sectors(v, f), f.bix, Off(v.g, f.fptr), w, v.g.ss, f.objsize, f.fptr);
  }

  /** Moving the pointer over bytes that were read. */
  lemma SkipPart(v: Vol, f: File, w: nat)
    requires Good(v, f) && f.sect != 0 && f.bix == Sec(v.g, f.fptr) && Holds(v.g, f.chain, f.clust, f.bix)
    requires 0 < w && Off(v.g, f.fptr) + w <= v.g.ss && f.fptr + w <= f.objsize
    ensures Good(v, f.(fptr := f.fptr + w)) && Placed(v.g, f.(fptr := f.fptr + w))
    ensures Content(v, f.(fptr := f.fptr + w)) == Content(v, f)
  {
    hide GoodVol, SectorOf, Sec, Off, SectorCount, ClusterIndex, Flat, View;
    GoodClusters(v, f.chain);
    PosSplit(v.g, f.fptr);
    PutPos(v.g, f.bix, Off(v.g, f.fptr), w);
  }

  lemma SkipRun(v: Vol, f: File, n: nat)
    requires Good(v, f) && Off(v.g, f.fptr) == 0 && n > 0 && f.fptr + n * v.g.ss <= f.objsize
    requires InnerIndex(v.g, Sec(v.g, f.fptr)) + n <= v.g.csize && Holds(v.g, f.chain, f.clust, Sec(v.g, f.fptr))
    ensures Good(v, f.(fptr := f.fptr + n * v.g.ss)) && Placed(v.g, f.(fptr := f.fptr + n * v.g.ss))
    ensures Content(v, f.(fptr := f.fptr + n * v.g.ss)) == Content(v, f)
  {
    hide GoodVol, SectorOf, Sec, Off, SectorCount, ClusterIndex, InnerIndex, Flat, View;
    GoodClusters(v, f.chain);
    RunEnd(v.g, f, n);
    var p := f.fptr + n * v.g.ss;
    SkipTo(v, f, p);
  }

  lemma SkipTo(v: Vol, f: File, p: nat)
    requires Good(v, f) && p <= f.objsize && Off(v.g, p) == 0
    ensures Good(v, f.(fptr := p)) && Content(v, f.(fptr := p)) == Content(v, f)
  {
    hide GoodVol, SectorOf, Sec, Off, SectorCount, ClusterIndex, InnerIndex, Flat, View;
  }

  // ----- walking and growing the chain

  /** Inside a cluster the current cluster also holds the sector at the pointer. */
  lemma SameCluster(g: Geo, f: File)
    requires g.csize > 0 && ValidSectorSize(g.ss) && Placed(g, f) && f.fptr > 0 && Off(g, f.fptr) == 0
    ensures Sec(g, f.fptr) > 0 && Sec(g, f.fptr - 1) == Sec(g, f.fptr) - 1
    ensures InnerIndex(g, Sec(g, f.fptr)) != 0 ==> Holds(g, f.chain, f.clust, Sec(g, f.fptr))
    ensures InnerIndex(g, Sec(g, f.fptr)) == 0 ==>
      ClusterIndex(g, Sec(g, f.fptr)) == ClusterIndex(g, Sec(g, f.fptr - 1)) + 1
  {
    var k := Sec(g, f.fptr);
    PosSplit(g, f.fptr);
    assert k == 0 ==> k * g.ss == 0;
    assert (k - 1) * g.ss + (g.ss - 1) == f.fptr - 1 by { assert (k - 1) * g.ss == k * g.ss - g.ss; }
    PosOf(g, k - 1, g.ss - 1);
    hide Sec, Off;
    IndexSplit(g, k);
    BackOne(g, k);
  }

  lemma BackOne(g: Geo, k: nat)
    requires g.csize > 0 && k > 0
    ensures InnerIndex(g, k) != 0 ==> ClusterIndex(g, k - 1) == ClusterIndex(g, k)
    ensures InnerIndex(g, k) == 0 ==> ClusterIndex(g, k) == ClusterIndex(g, k - 1) + 1
  {
    var q, r := ClusterIndex(g, k), InnerIndex(g, k);
    IndexSplit(g, k);
    hide ClusterIndex, InnerIndex;
    if r != 0 {
      IndexOf(g, q, r - 1);
    } else {
      assert q == 0 ==> q * g.csize == 0;
      assert (q - 1) * g.csize + (g.csize - 1) == k - 1 by { assert (q - 1) * g.csize == q * g.csize - g.csize; }
      IndexOf(g, q - 1, g.csize - 1);
    }
  }

  /** The entry of the i-th cluster of a chain links to the next one or ends the chain. */
  lemma ChainStep(fat: FatMap, chain: seq<nat>, i: nat)
    requires IsChain(fat, chain) && i < |chain|
    ensures InRange(fat, chain[i])
    ensures i + 1 < |chain| ==> fat[chain[i]] == chain[i + 1] && InRange(fat, chain[i + 1])
    ensures i + 1 == |chain| ==> fat[chain[i]] >= |fat|
  {
  }

  /** Reading a FAT sector moves the window to a place that is still apart. */
  lemma WindowMoves(g: Geo, fat: FatMap, chain: seq<nat>, a: nat, b: nat)
    requires g.Sound() && |fat| == g.nFatent && WindowApart(g, fat, chain, a)
    requires b == a || b == 0xFFFF_FFFF || g.InFat(b)
    ensures WindowApart(g, fat, chain, b)
  {
    Arithmetic();
    hide Times, Quotient, Remainder;
    Bounds(g);
    forall c: nat | g.ValidCluster(c) && g.InCluster(b, c) ensures fat[c] != 0 && c !in chain {
      ClusterOffset(c - 2, g.nFatent - 2, g.csize);
    }
  }

  /** A new cluster taken from the free ones keeps the window apart. */
  lemma WindowStaysApart(g: Geo, fat: FatMap, fat': FatMap, chain: seq<nat>, r: nat, w: nat)
    requires |fat| == |fat'| == g.nFatent && WindowApart(g, fat, chain, w)
    requires r < |fat| && fat[r] == 0
    requires forall c :: 0 <= c < |fat| && fat[c] != 0 ==> fat'[c] != 0
    ensures WindowApart(g, fat', chain + [r], w)
  {
  }

  /** The file after its chain grew by cluster r. */
  lemma GrowKeepsFile(v: Vol, f: File, w: Vol, r: nat, eoc: nat)
    requires Good(v, f) && w.g == v.g && OnlyFat(v.g, v.img, w.img) && Shaped(w.g, w.img)
    requires w.winsect == v.winsect || w.winsect == 0xFFFF_FFFF || v.g.InFat(w.winsect)
    requires InRange(FatOf(v.g, v.img), r) && FatOf(v.g, v.img)[r] == 0 && eoc >= v.g.nFatent
    requires FatOf(w.g, w.img) ==
      if f.chain == [] then Marked(FatOf(v.g, v.img), r, eoc) else Grown(FatOf(v.g, v.img), f.chain, r, eoc)
    ensures Good(w, f.(chain := f.chain + [r])) && Content(w, f.(chain := f.chain + [r])) == Content(v, f)
  {
    hide Shaped, OnlyFat, FatOf, Buffered, Clean, Sized, Content;
    GrowVol(v, f.chain, w, r, eoc);
    hide GoodVol;
    GrowBuffer(v, f, w, r);
  }

  /** The FAT after the last cluster of a chain is linked to r. */
  function Grown(fat: FatMap, chain: seq<nat>, r: nat, eoc: nat): FatMap
  {
    if chain != [] && chain[|chain| - 1] < |fat| && r < |fat| then Linked(fat, chain[|chain| - 1], r, eoc) else fat
  }

  lemma GrowVol(v: Vol, chain: seq<nat>, w: Vol, r: nat, eoc: nat)
    requires GoodVol(v, chain) && w.g == v.g && Shaped(w.g, w.img)
    requires w.winsect == v.winsect || w.winsect == 0xFFFF_FFFF || v.g.InFat(w.winsect)
    requires InRange(FatOf(v.g, v.img), r) && FatOf(v.g, v.img)[r] == 0 && eoc >= v.g.nFatent
    requires FatOf(w.g, w.img) ==
      if chain == [] then Marked(FatOf(v.g, v.img), r, eoc) else Grown(FatOf(v.g, v.img), chain, r, eoc)
    ensures GoodVol(w, chain + [r])
  {
    hide Shaped, FatOf;
    var fat, fat' := FatOf(v.g, v.img), FatOf(w.g, w.img);
    assert v.g.Sound() by { GoodClusters(v, chain); }
    hide WindowApart;
    WindowMoves(v.g, fat, chain, v.winsect, w.winsect);
    if chain == [] {
      StartChain(fat, r, eoc);
      assert chain + [r] == [r];
    } else {
      ChainStep(fat, chain, |chain| - 1);
      Stretch(fat, chain, r, eoc);
    }
    hide WellFormed, IsChain;
    WindowStaysApart(v.g, fat, fat', chain, r, w.winsect);
  }

  lemma GrowBuffer(v: Vol, f: File, w: Vol, r: nat)
    requires Good(v, f) && w.g == v.g && OnlyFat(v.g, v.img, w.img) && GoodVol(w, f.chain + [r])
    ensures Good(w, f.(chain := f.chain + [r])) && Content(w, f.(chain := f.chain + [r])) == Content(v, f)
  {
    hide GoodVol, Good, Content;
    GrowGood(v, f, w, r);
    GrowContent(v, f, w, r);
  }

  lemma GrowGood(v: Vol, f: File, w: Vol, r: nat)
    requires Good(v, f) && w.g == v.g && OnlyFat(v.g, v.img, w.img) && GoodVol(w, f.chain + [r])
    ensures Good(w, f.(chain := f.chain + [r]))
  {
    Arithmetic();
    hide Times, Quotient, Remainder;
    var g, h := v.g, f.(chain := f.chain + [r]);
    GoodClusters(v, f.chain);
    SameData(g, v.img, w.img, f.chain);
    hide GoodVol;
    ViewExtend(g, w.img, f.chain, r);
    if f.sect != 0 { SectorPlace(g, f.chain, f.bix); }
    hide SectorOf, Geo.Sound, InChain, ClusterIndex, View, Clusters, OnlyFat, Sec, Off;
    assert Sized(g, h.chain, h.objsize, h.fptr) by { MulMono(SectorCount(g, f.chain), SectorCount(g, h.chain), g.ss); }
  }

  lemma GrowContent(v: Vol, f: File, w: Vol, r: nat)
    requires Good(v, f) && w.g == v.g && OnlyFat(v.g, v.img, w.img) && Good(w, f.(chain := f.chain + [r]))
    ensures Content(w, f.(chain := f.chain + [r])) == Content(v, f)
  {
    var g, h := v.g, f.(chain := f.chain + [r]);
    GoodClusters(v, f.chain);
    SameData(g, v.img, w.img, f.chain);
    hide GoodVol, SectorOf, Geo.Sound, ClusterIndex, View, Clusters, OnlyFat, Sec, Off, Sized, Flat;
    ViewExtend(g, w.img, f.chain, r);
    ContentShape(v, f);
    ContentShape(w, h);
    assert Sectors(w, h)[..SectorCount(g, f.chain)] == Sectors(v, f);
    hide Sectors, Content, Good, Staged;
    FatWide(g, f.chain, Sectors(v, f), Sectors(w, h), f.objsize);
  }

  lemma FatWide(g: Geo, chain: seq<nat>, a: seq<Sector>, b: seq<Sector>, size: nat)
    requires |a| <= |b| && b[..|a|] == a && Uniform(a, g.ss) && Uniform(b, g.ss) && size <= |Flat(a)|
    ensures |Flat(b)| >= |Flat(a)| && Flat(b)[..size] == Flat(a)[..size]
  {
    FlatLength(a, g.ss);
    assert a[..|a|] == a;
    FlatPrefix(a, b, |a|, g.ss, size);
  }

  /** File data does not lie in the FAT, so a FAT update leaves it alone. */
  lemma SameData(g: Geo, a: Image, b: Image, chain: seq<nat>)
    requires g.Sound() && Clusters(g, chain) && OnlyFat(g, a, b)
    ensures View(g, a, chain) == View(g, b, chain)
    ensures forall s :: g.database <= s < |a| ==> a[s] == b[s]
  {
    Bounds(g);
    hide Geo.Sound, View;
    forall s: nat | InChain(g, chain, s) ensures s >= g.database { InDataArea(g, chain, s); }
    hide InChain;
    ViewFrame(g, a, b, chain);
  }

  lemma InDataArea(g: Geo, chain: seq<nat>, s: nat)
    requires InChain(g, chain, s)
    ensures s >= g.database
  {
    var i :| 0 <= i < |chain| && chain[i] >= 2 && g.InCluster(s, chain[i]);
  }

  // ----- the other files of the volume

  /** Every chain apart from this file's is still a chain with the same data. */
  ghost predicate Others(v: Vol, chain: seq<nat>, w: Vol, chain': seq<nat>)
  {
    && v.g == w.g
    && forall t :: IsChain(FatOf(v.g, v.img), t) && Apart(chain, t) ==>
        IsChain(FatOf(w.g, w.img), t) && Apart(chain', t) && View(w.g, w.img, t) == View(v.g, v.img, t)
  }

  lemma OthersSame(v: Vol, chain: seq<nat>, w: Vol)
    requires w.g == v.g && w.img == v.img
    ensures Others(v, chain, w, chain)
  {
    hide IsChain, Apart, View, FatOf;
  }

  lemma OthersTrans(u: Vol, a: seq<nat>, v: Vol, b: seq<nat>, w: Vol, c: seq<nat>)
    requires Others(u, a, v, b) && Others(v, b, w, c)
    ensures Others(u, a, w, c)
  {
    hide IsChain, Apart, View, FatOf;
  }

  /** Writing inside this file's clusters does not touch another file. */
  lemma OthersWrite(v: Vol, chain: seq<nat>, k: nat, data: seq<Sector>)
    requires GoodVol(v, chain) && k < SectorCount(v.g, chain)
    requires InnerIndex(v.g, k) + |data| <= v.g.csize && Uniform(data, v.g.ss)
    ensures SectorOf(v.g, chain, k) + |data| <= |v.img|
    ensures Others(v, chain, v.(img := Splice(v.img, SectorOf(v.g, chain, k), data)), chain)
  {
    DataWrite(v, chain, k, data);
    GoodClusters(v, chain);
    hide SectorOf, InnerIndex, WellFormed, Geo.Sound, GoodVol, View, FatOf, InChain;
    SpliceInside(v.g, v.img, chain, k, data);
    var w := v.(img := Splice(v.img, SectorOf(v.g, chain, k), data));
    forall t | IsChain(FatOf(v.g, v.img), t) && Apart(chain, t) ensures View(w.g, w.img, t) == View(v.g, v.img, t) {
      ChainClusters(v, t);
      ApartData(v.g, v.img, w.img, chain, t);
    }
  }

  lemma ChainClusters(v: Vol, t: seq<nat>)
    requires IsChain(FatOf(v.g, v.img), t)
    ensures Clusters(v.g, t)
  {
    hide FatOf;
    ChainIsDistinct(FatOf(v.g, v.img), t);
  }

  lemma ApartData(g: Geo, a: Image, b: Image, chain: seq<nat>, t: seq<nat>)
    requires g.Sound() && Clusters(g, t) && Apart(chain, t) && |a| == |b|
    requires forall s :: 0 <= s < |a| && !InChain(g, chain, s) ==> b[s] == a[s]
    ensures View(g, b, t) == View(g, a, t)
  {
    forall s: nat | s < |a| && InChain(g, t, s) ensures b[s] == a[s] {
      ApartSector(g, chain, t, s);
    }
    hide InChain, View, Geo.Sound;
    ViewFrame(g, b, a, t);
  }

  lemma ApartSector(g: Geo, chain: seq<nat>, t: seq<nat>, s: nat)
    requires Apart(chain, t) && InChain(g, t, s)
    ensures !InChain(g, chain, s)
  {
    var j :| 0 <= j < |t| && t[j] >= 2 && g.InCluster(s, t[j]);
    forall i | 0 <= i < |chain| && chain[i] >= 2 ensures !g.InCluster(s, chain[i]) {
      assert chain[i] in chain;
      ClustersDisjoint(g, chain[i], t[j], s);
    }
  }

  /** Taking a free cluster does not touch another file. */
  lemma OthersGrow(v: Vol, chain: seq<nat>, w: Vol, r: nat, eoc: nat)
    requires GoodVol(v, chain) && w.g == v.g && OnlyFat(v.g, v.img, w.img)
    requires InRange(FatOf(v.g, v.img), r) && FatOf(v.g, v.img)[r] == 0 && eoc >= v.g.nFatent
    requires FatOf(w.g, w.img) ==
      if chain == [] then Marked(FatOf(v.g, v.img), r, eoc) else Grown(FatOf(v.g, v.img), chain, r, eoc)
    ensures Others(v, chain, w, chain + [r])
  {
    hide Times, Quotient, Remainder;
    GoodClusters(v, chain);
    hide Shaped, FatOf, View, WindowApart, Geo.Sound;
    var fat := FatOf(v.g, v.img);
    if chain == [] {
      StartChain(fat, r, eoc);
    } else {
      ChainStep(fat, chain, |chain| - 1);
      Stretch(fat, chain, r, eoc);
    }
    hide WellFormed;
    forall t | IsChain(fat, t) && Apart(chain, t)
      ensures IsChain(FatOf(w.g, w.img), t) && Apart(chain + [r], t) && View(w.g, w.img, t) == View(v.g, v.img, t)
    {
      FreeNotInChain(fat, t, r);
      ChainClusters(v, t);
      SameData(v.g, v.img, w.img, t);
      if chain != [] { assert chain[|chain| - 1] in chain; }
    }
  }

  // ----- moving the pointer

  /** Raising the size inside the clusters keeps the old bytes in front. */
  lemma ExtendSize(v: Vol, f: File, size: nat)
    requires Good(v, f) && f.objsize <= size < TWO32 && size <= SectorCount(v.g, f.chain) * v.g.ss
    ensures Good(v, f.(objsize := size)) && Content(v, f) <= Content(v, f.(objsize := size))
    ensures |Content(v, f.(objsize := size))| == size
  {
    Arithmetic();
    hide Times, Quotient, Remainder;
    hide GoodVol, SectorOf, Sec, Off, SectorCount;
    var h := f.(objsize := size);
    assert Good(v, h);
    hide Good, Sized, Flat, View;
    assert Staged(v, f) && Staged(v, h);
    ContentShape(v, f);
    ContentShape(v, h);
    assert Sectors(v, f) == Sectors(v, h);
    hide Sectors, Content;
    CutPrefix(Flat(Sectors(v, f)), f.objsize, size);
  }

  lemma CutPrefix(s: seq<byte>, a: nat, b: nat)
    requires a <= b <= |s|
    ensures s[..a] <= s[..b]
  {
  }

  /** The pointer may go anywhere inside the file whose sector is buffered, or to any
      sector boundary. */
  lemma SetPointer(v: Vol, f: File, p: nat)
    requires Good(v, f) && p <= f.objsize
    requires Off(v.g, p) != 0 ==> f.sect != 0 && f.bix == Sec(v.g, p)
    ensures Good(v, f.(fptr := p)) && Content(v, f.(fptr := p)) == Content(v, f)
  {
    hide GoodVol, SectorOf, Sec, Off, SectorCount, Flat, View;
  }
}
