/** Growing a directory: a fresh cluster, filled with zeros through the window. */
module DirStretch {
  import opened Allocator
  import opened Arith
  import opened Bytes
  import opened Chains
  import opened ChainEdits
  import opened DirTable
  import opened FatEntries
  import opened FatTable
  import opened FileLayout
  import opened Geometry
  import opened Media
  import opened Window

  /** Valid and clean, whatever the window holds. */
  ghost predicate Idle(fs: FatFs)
    reads fs`wflag, fs`winsect, fs`log, fs`fats, fs`marks, fs`bypass, fs.win, fs.disk
  {
    && fs.geo.Sound() && fs.geo.FsInfoApart() && fs.geo.End() <= fs.disk.size
    && fs.disk.Valid() && fs.disk.ss == fs.geo.ss == fs.win.Length
    && !fs.wflag && fs.Journaled() && Traced(fs.geo, fs.log, fs.fats, fs.Img())
  }

  /** A sector of the data area becomes zero: the cleared window is marked dirty and flushed to it. */
  method ZeroSector(fs: FatFs) returns (res: FResult)
    requires Idle(fs) && fs.geo.database <= fs.winsect < fs.disk.size && fs.win[..] == Zeros(fs.geo.ss)
    modifies fs`wflag, fs`marks, fs`log, fs.disk
    ensures fs.Valid() && fs.Grows() && fs.fats == old(fs.fats) && fs.win[..] == Zeros(fs.geo.ss)
    ensures res == Ok || (res == DiskErr && fs.disk.mayFail)
    ensures res == Ok ==> Idle(fs)
    ensures fs.Img() == old(fs.Img())[fs.winsect := Zeros(fs.geo.ss)]
  {
    hide Geo.Sound, Journal, Agree, Blank, FatOf;
    ghost var img := fs.Img();
    DataApart(fs.geo, fs.winsect);
    FatFrame(fs.geo, img, fs.Edited()) by { Bounds(fs.geo); }
    hide Traced;
    StillTraced(fs.geo, fs.log, fs.fats, img, fs.Edited());
    Touch(fs);
    res := SyncWindow(fs);
  }

  lemma ValidIsIdle(fs: FatFs)
    requires fs.Valid() && !fs.wflag
    ensures Idle(fs)
  {
  }

  /** With nothing to flush the window may stand for any sector. */
  method PointWindow(fs: FatFs, s: nat)
    requires Idle(fs)
    modifies fs`winsect
    ensures Idle(fs) && fs.winsect == s && fs.Img() == old(fs.Img()) && fs.Grows()
  {
    hide Geo.Sound, Journal, Agree, Blank, FatOf, Traced;
    fs.winsect := s;
  }

  /** The loop that clears the new cluster; s is its first sector. */
  method ZeroCluster(fs: FatFs, s: nat) returns (res: FResult)
    requires Idle(fs) && fs.geo.database <= s && s + fs.geo.csize <= fs.disk.size && fs.win[..] == Zeros(fs.geo.ss)
    modifies fs`wflag, fs`winsect, fs`marks, fs`log, fs.disk
    ensures fs.Grows() && fs.fats == old(fs.fats)
    ensures res == Ok || (res == DiskErr && fs.disk.mayFail)
    ensures fs.Valid() && (res == Ok ==> fs.winsect == s)
    ensures s + fs.geo.csize <= |old(fs.Img())|
    ensures res == Ok ==> fs.Img() == Splice(old(fs.Img()), s, ZeroRun(fs.geo.csize, fs.geo.ss))
  {
    hide Geo.Sound, Journal, Agree, Blank, FatOf, Traced, FatFs.Journaled;
    ghost var img := fs.Img();
    Bounds(fs.geo);
    var n: nat := 0;
    res := Ok;
    PointWindow(fs, s);
    while n < fs.geo.csize
      invariant n <= fs.geo.csize && fs.winsect == s + n && Idle(fs) && fs.win[..] == Zeros(fs.geo.ss)
      invariant fs.Grows() && fs.fats == old(fs.fats) && res == Ok && |img| == fs.disk.size
      invariant fs.Img() == Splice(img, s, ZeroRun(n, fs.geo.ss))
    {
      ghost var was := fs.Img();
      res := ZeroSector(fs);
      if res != Ok { return; }
      OneMore(img, s, n, fs.geo.ss);
      n := n + 1;
      PointWindow(fs, fs.winsect + 1);
    }
    PointWindow(fs, fs.winsect - n);
    BackToFirst(fs, img, s);
  }

  lemma OneMore(img: Image, s: nat, n: nat, ss: nat)
    requires s + n < |img|
    ensures Splice(img, s, ZeroRun(n, ss))[s + n := Zeros(ss)] == Splice(img, s, ZeroRun(n + 1, ss))
  {
  }

  lemma BackToFirst(fs: FatFs, img: Image, s: nat)
    requires Idle(fs) && fs.winsect == s && fs.geo.database <= s && s + fs.geo.csize <= fs.disk.size == |img| && fs.win[..] == Zeros(fs.geo.ss)
    requires fs.Img() == Splice(img, s, ZeroRun(fs.geo.csize, fs.geo.ss))
    ensures fs.Valid()
  {
    Bounds(fs.geo);
    DataApart(fs.geo, s);
    BlankAt(fs.geo, fs.disk.sectors, s);
    hide Geo.Sound, Journal, Agree, FatOf, Traced, FatFs.Journaled, Blank;
    assert fs.Img()[s] == Zeros(fs.geo.ss);
  }

  /** The window is cleared. */
  method ClearWindow(fs: FatFs)
    requires Idle(fs)
    modifies fs.win
    ensures Idle(fs) && fs.win[..] == Zeros(fs.geo.ss) && fs.Img() == old(fs.Img()) && fs.Grows()
  {
    hide Geo.Sound, Journal, Agree, Blank, FatOf, Traced;
    Clear(fs.win);
  }

  /** The table has grown by cluster r, which was free and now holds zeros; outside it and
      the FAT nothing changed. */
  ghost predicate Stretched(g: Geo, img: Image, chain: seq<nat>, img': Image, r: nat)
  {
    && chain != [] && |img| == |img'| && InRange(FatOf(g, img), r) && FatOf(g, img)[r] == 0
    && InRange(FatOf(g, img), chain[|chain| - 1])
    && FatOf(g, img') == Linked(FatOf(g, img), chain[|chain| - 1], r, EndMark(g))
    && (forall s :: 0 <= s < |img| && !g.InFat(s) && !g.InCluster(s, r) ==> img'[s] == img[s])
    && (forall s :: 0 <= s < |img| && g.InCluster(s, r) ==> img'[s] == Zeros(g.ss))
  }

  /** The table right after create_chain. */
  lemma Attached(g: Geo, img: Image, chain: seq<nat>, mid: Image, scl: nat, r: nat)
    requires GoodTable(g, img, chain) && chain != [] && OnlyFat(g, img, mid) && Shaped(g, mid)
    requires FirstFree(FatOf(g, img), scl, r)
    requires FatOf(g, mid) == Final(FatOf(g, img), AllocSteps(FatOf(g, img), chain[|chain| - 1], r, EndMark(g)))
    ensures GoodTable(g, mid, chain + [r]) && g.ValidCluster(r) && FatOf(g, img)[r] == 0
    ensures InRange(FatOf(g, img), chain[|chain| - 1])
    ensures FatOf(g, mid) == Linked(FatOf(g, img), chain[|chain| - 1], r, EndMark(g))
  {
    hide Shaped, FatOf, EndMark;
    var fat := FatOf(g, img);
    TableFacts(g, img, chain);
    TableLink(g, img, chain, |chain| - 1);
    LinkReadsBack(g, 0);
    Stretch(fat, chain, r, EndMark(g));
  }

  lemma Filled(g: Geo, img: Image, chain: seq<nat>, mid: Image, r: nat, img': Image)
    requires GoodTable(g, mid, chain + [r]) && chain != [] && g.ValidCluster(r) && OnlyFat(g, img, mid)
    requires InRange(FatOf(g, img), r) && FatOf(g, img)[r] == 0 && InRange(FatOf(g, img), chain[|chain| - 1])
    requires FatOf(g, mid) == Linked(FatOf(g, img), chain[|chain| - 1], r, EndMark(g))
    requires ClusterBase(g, r) + g.csize <= |mid| && img' == Splice(mid, ClusterBase(g, r), ZeroRun(g.csize, g.ss))
    ensures Stretched(g, img, chain, img', r) && GoodTable(g, img', chain + [r])
  {
    TableFacts(g, mid, chain + [r]);
    hide WellFormed, EndMark, IsChain, FatOf;
    Bounds(g);
    ClusterOffset(r - 2, g.nFatent - 2, g.csize);
    FillShape(g, mid, r, img');
    FatFrame(g, mid, img');
  }

  lemma FillShape(g: Geo, mid: Image, r: nat, img': Image)
    requires Shaped(g, mid) && g.ValidCluster(r) && ClusterBase(g, r) >= g.database
    requires ClusterBase(g, r) + g.csize <= |mid| && img' == Splice(mid, ClusterBase(g, r), ZeroRun(g.csize, g.ss))
    ensures Shaped(g, img') && |img'| == |mid|
    ensures forall s :: 0 <= s < |mid| && g.InCluster(s, r) ==> img'[s] == Zeros(g.ss)
    ensures forall s :: 0 <= s < |mid| && !g.InCluster(s, r) ==> img'[s] == mid[s]
    ensures forall s :: 0 <= s < |mid| && g.InFat(s) ==> img'[s] == mid[s]
  {
    Bounds(g);
    hide Geo.Sound;
  }

  lemma EndOfTable(g: Geo, img: Image, chain: seq<nat>)
    requires GoodTable(g, img, chain) && chain != []
    ensures g.ValidCluster(chain[|chain| - 1]) && FatOf(g, img)[chain[|chain| - 1]] >= g.nFatent
    ensures !HasInvalid(FatOf(g, img)) && WellFormed(FatOf(g, img)) && g.Sound()
  {
    TableLink(g, img, chain, |chain| - 1);
    hide Shaped, FatOf, IsChain;
    TableFacts(g, img, chain);
  }

  lemma NewCluster(g: Geo, mid: Image, chain: seq<nat>, r: nat)
    requires GoodTable(g, mid, chain) && g.ValidCluster(r)
    ensures g.nFatent >= 2 && Clust2Sect(g, r) == ClusterBase(g, r) >= g.database
    ensures ClusterBase(g, r) + g.csize <= g.End()
  {
    Arithmetic();
    hide Times, Quotient, Remainder;
    TableFacts(g, mid, chain);
    Bounds(g);
    ClusterSectors(g, r);
  }

  /** "Clean-up the stretched table" */
  method CleanUp(fs: FatFs, clst: nat) returns (res: FResult)
    requires fs.Valid() && fs.geo.nFatent >= 2 && fs.geo.database <= Clust2Sect(fs.geo, clst)
    requires Clust2Sect(fs.geo, clst) + fs.geo.csize <= fs.geo.End()
    modifies fs`wflag, fs`winsect, fs`marks, fs`log, fs.win, fs.disk
    ensures fs.Valid() && fs.Grows() && fs.fats == old(fs.fats)
    ensures res == Ok || (res == DiskErr && fs.disk.mayFail)
    ensures Clust2Sect(fs.geo, clst) + fs.geo.csize <= |old(fs.Img())|
    ensures res == Ok ==> fs.Img() == Splice(old(fs.Img()), Clust2Sect(fs.geo, clst), ZeroRun(fs.geo.csize, fs.geo.ss))
  {
    hide FatFs.Ready, FatFs.Journaled, Traced, FatOf, FatFs.Img, FatFs.Mirrored, Clust2Sect, Geo.Sound, Idle;
    VolumeBounds(fs);
    ImageShaped(fs);
    res := SyncWindow(fs);
    if res != Ok { return; }
    ValidIsIdle(fs);
    ClearWindow(fs);
    res := ZeroCluster(fs, Clust2Sect(fs.geo, clst));
  }

  /** The table has been linked to cluster r. */
  ghost predicate Taken(g: Geo, img: Image, chain: seq<nat>, mid: Image, r: nat)
  {
    && GoodTable(g, mid, chain + [r]) && chain != [] && g.ValidCluster(r) && OnlyFat(g, img, mid)
    && InRange(FatOf(g, img), r) && FatOf(g, img)[r] == 0 && InRange(FatOf(g, img), chain[|chain| - 1])
    && FatOf(g, mid) == Linked(FatOf(g, img), chain[|chain| - 1], r, EndMark(g))
  }

  /** A free cluster is taken for the end of the table. */
  method TakeCluster(dp: Dir) returns (res: FResult, clst: nat)
    requires dp.Open() && dp.chain != [] && dp.clust == dp.chain[|dp.chain| - 1]
    modifies dp.fs`wflag, dp.fs`winsect, dp.fs`marks, dp.fs`log, dp.fs`fats, dp.fs`lastClst, dp.fs`freeClst, dp.fs`fsiDirty, dp.fs.win, dp.fs.disk
    ensures StaysSafe(dp.fs, res != DiskErr)
    ensures dp.fs.Valid() && dp.fs.Grows()
    ensures res == Ok || res == Denied || (res == DiskErr && dp.fs.disk.mayFail)
    ensures res == Denied ==> dp.fs.Img() == old(dp.fs.Img()) && NoneFree(dp.fs.Fat())
    ensures res == Ok ==> Taken(dp.fs.geo, old(dp.fs.Img()), dp.chain, dp.fs.Img(), clst)
  {
    hide AllWellFormed, TornLast;
    hide FatFs.Ready, FatFs.Journaled, Traced, FatOf, GoodTable, FatFs.Img, EndMark, NoneFree, FirstFree, AllocSteps, Final, OnlyFat, HasInvalid, FatFs.Mirrored, FatFs.Valid, AllocCut, WellFormed, Geo.Sound;
    ghost var g, img, chain, hint, fats := dp.fs.geo, dp.fs.Img(), dp.chain, dp.fs.lastClst, dp.fs.fats;
    EndOfTable(g, img, chain);
    clst := CreateChain(dp.fs, dp.clust);
    if AllWellFormed(fats) {
      CallIsSafe(g, fats, FatOf(g, img), chain[|chain| - 1], SearchStart(chain[|chain| - 1], hint, g.nFatent), clst, dp.fs.fats);
    }
    if clst == 0 { return Denied, clst; }
    if clst == 1 { return IntErr, clst; }
    if clst == 0xFFFF_FFFF { return DiskErr, clst; }
    ImageShaped(dp.fs);
    Attached(g, img, chain, dp.fs.Img(), SearchStart(dp.clust, hint, g.nFatent), clst);
    res := Ok;
  }

  /** The part of `dir_next` that stretches the table behind its last cluster. */
  method StretchTable(dp: Dir) returns (res: FResult, clst: nat)
    requires dp.Open() && dp.chain != [] && dp.clust == dp.chain[|dp.chain| - 1]
    modifies dp`chain, dp.fs`wflag, dp.fs`winsect, dp.fs`marks, dp.fs`log, dp.fs`fats, dp.fs`lastClst, dp.fs`freeClst, dp.fs`fsiDirty, dp.fs.win, dp.fs.disk
    ensures StaysSafe(dp.fs, res != DiskErr)
    ensures dp.fs.Valid() && dp.fs.Grows()
    ensures res == Ok || res == Denied || (res == DiskErr && dp.fs.disk.mayFail)
    ensures res == Denied ==> dp.Open() && dp.chain == old(dp.chain) && dp.fs.Img() == old(dp.fs.Img()) && NoneFree(dp.fs.Fat())
    ensures res == Ok ==> dp.Open() && dp.chain == old(dp.chain) + [clst] && Stretched(dp.fs.geo, old(dp.fs.Img()), old(dp.chain), dp.fs.Img(), clst)
  {
    hide AllWellFormed, TornLast;
    hide FatFs.Ready, FatFs.Journaled, Traced, FatOf, GoodTable, FatFs.Img, EndMark, NoneFree, OnlyFat, Stretched, FatFs.Valid;
    ghost var g, img, chain := dp.fs.geo, dp.fs.Img(), dp.chain;
    res, clst := TakeCluster(dp);
    if res != Ok { return; }
    ghost var mid := dp.fs.Img();
    NewCluster(g, mid, chain + [clst], clst);
    res := CleanUp(dp.fs, clst);
    if res != Ok { return DiskErr, clst; }
    Filled(g, img, chain, mid, clst, dp.fs.Img());
    dp.chain := dp.chain + [clst];
  }
}
