/** `f_sync`: after it the medium alone holds the file. */
module Sync {
  import opened Arith
  import opened Bytes
  import opened Chains
  import opened FatEntries
  import opened FatTable
  import opened FileLayout
  import opened FileModel
  import opened Files
  import opened Geometry
  import opened LinkMap
  import opened Media
  import opened Window

  /** Start cluster stored in a directory entry at offset o: `ld_clust`. */
  function LdClust(g: Geo, sec: seq<byte>, o: nat): nat
    requires o + 32 <= |sec|
  {
    if g.fsType == Fat32 then LdWord(sec, o + 26) + LdWord(sec, o + 20) * 0x1_0000 else LdWord(sec, o + 26)
  }

  /** The entry names the file's start cluster and size. */
  ghost predicate Describes(g: Geo, sec: seq<byte>, o: nat, sclust: nat, size: nat)
  {
    o + 32 <= |sec| && LdClust(g, sec, o) == sclust && LdDword(sec, o + 28) == size
  }

  /** The directory entry at offset o of a sector has been brought up to date: the archive bit
      is set, the start cluster, the size and the time of modification tm are stored, the
      access date is 0; name, creation time and all else are as they were. The high half of
      the start cluster is a field of FAT32 alone. */
  ghost predicate Updated(g: Geo, was: seq<byte>, now: seq<byte>, o: nat, sclust: nat, size: nat, tm: nat)
  {
    && |was| == |now| && o + 32 <= |now| && SameOutside(was, now, o, o + 32)
    && now[o..o + 11] == was[o..o + 11]
    && now[o + 11] as nat == (if was[o + 11] as nat / 0x20 % 2 == 1 then was[o + 11] as nat else was[o + 11] as nat + 0x20)
    && now[o + 12..o + 18] == was[o + 12..o + 18] && now[o + 18] == 0 && now[o + 19] == 0
    && (if g.fsType == Fat32 then LdWord(now, o + 20) == sclust / 0x1_0000 else now[o + 20..o + 22] == was[o + 20..o + 22])
    && LdDword(now, o + 22) == tm % 0x1_0000_0000 && LdWord(now, o + 26) == sclust % 0x1_0000 && LdDword(now, o + 28) == size
  }

  /** "Update the directory entry" in the window. */
  method UpdateEntry(g: Geo, win: array<byte>, o: nat, sclust: nat, size: nat, tm: nat)
    requires o + 32 <= win.Length && size < TWO32 && sclust < TWO32 && (g.fsType != Fat32 ==> sclust < 0x1_0000)
    modifies win
    ensures Describes(g, win[..], o, sclust, size) && Updated(g, old(win[..]), win[..], o, sclust, size, tm)
  {
    ghost var was := win[..];
    win[o + 11] := WithArchive(win[o + 11]);
    PokeWord(win, o + 26, sclust);
    if g.fsType == Fat32 { PokeWord(win, o + 20, sclust / 0x1_0000); }
    PokeDword(win, o + 28, size);
    PokeDword(win, o + 22, tm);
    PokeWord(win, o + 18, 0);
    assert forall k :: o <= k < o + 11 ==> win[k] == was[k];
  }

  /** The attributes with the archive bit set. */
  function WithArchive(a: byte): byte
  {
    if a as nat / 0x20 % 2 == 1 then a else a + 0x20
  }

  /** A sector of a directory other than the file: no FAT sector, no shadow sector, in no
      cluster of the file and in no free cluster. */
  ghost predicate DirectorySector(v: Vol, chain: seq<nat>, s: nat)
  {
    s < |v.img| && !v.g.InFat(s) && !v.g.Shadow(s) && WindowApart(v.g, FatOf(v.g, v.img), chain, s)
  }

  /** The window may stand on a directory sector. */
  lemma WindowOnDirectory(v: Vol, f: File, s: nat)
    requires Good(v, f) && WindowApart(v.g, FatOf(v.g, v.img), f.chain, s)
    ensures Good(v.(winsect := s), f) && Content(v.(winsect := s), f) == Content(v, f)
  {
    hide WellFormed, Shaped, FatOf, View, Flat, SectorOf, WindowApart;
  }

  /** Rewriting a directory sector does not touch the file. */
  lemma EditKeeps(v: Vol, f: File, s: nat, data: Sector)
    requires Good(v, f) && DirectorySector(v, f.chain, s) && |data| == v.g.ss
    ensures var w := v.(img := v.img[s := data]);
      && Good(w, f) && Content(w, f) == Content(v, f) && FatOf(w.g, w.img) == FatOf(v.g, v.img)
      && View(w.g, w.img, f.chain) == View(v.g, v.img, f.chain) && DirectorySector(w, f.chain, s)
  {
    hide GoodVol, View, SectorOf, WindowApart, Geo.Sound, Flat, Sized, FatOf;
    EditVol(v, f, s, data);
    BufferElsewhere(v, f, s);
  }

  lemma EditVol(v: Vol, f: File, s: nat, data: Sector)
    requires Good(v, f) && DirectorySector(v, f.chain, s) && |data| == v.g.ss
    ensures var w := v.(img := v.img[s := data]);
      && GoodVol(w, f.chain) && FatOf(w.g, w.img) == FatOf(v.g, v.img)
      && View(w.g, w.img, f.chain) == View(v.g, v.img, f.chain)
  {
    var w := v.(img := v.img[s := data]);
    GoodClusters(v, f.chain);
    NotOfFile(v, f.chain, s);
    hide WellFormed, FatOf, WindowApart, InChain, View, IsChain, Geo.Sound, Buffered, Sized, Clean;
    FatFrame(v.g, v.img, w.img) by { Bounds(v.g); }
    ViewFrame(v.g, w.img, v.img, f.chain);
  }

  lemma BufferElsewhere(v: Vol, f: File, s: nat)
    requires Good(v, f) && DirectorySector(v, f.chain, s)
    ensures f.sect != 0 ==> f.sect != s
  {
    GoodClusters(v, f.chain);
    NotOfFile(v, f.chain, s);
    hide GoodVol, WindowApart, InChain, SectorOf;
    if f.sect != 0 { SectorPlace(v.g, f.chain, f.bix); }
  }

  lemma NotOfFile(v: Vol, chain: seq<nat>, s: nat)
    requires DirectorySector(v, chain, s) && Clusters(v.g, chain)
    ensures !InChain(v.g, chain, s)
  {
    forall i | 0 <= i < |chain| && chain[i] >= 2 ensures !v.g.InCluster(s, chain[i]) {
      assert chain[i] in chain && v.g.ValidCluster(chain[i]);
    }
  }

  /** Below the data area the window is clear of every cluster. */
  lemma WindowBelowData(v: Vol, f: File, s: nat)
    requires Good(v, f) && s <= v.g.fatbase
    ensures Good(v.(winsect := s), f) && Content(v.(winsect := s), f) == Content(v, f)
  {
    GoodClusters(v, f.chain);
    Bounds(v.g);
    assert v.g.fsize > 0;
    hide Good, FatOf;
    forall c: nat | v.g.ValidCluster(c) ensures !v.g.InCluster(s, c) {
      ClusterOffset(c - 2, v.g.nFatent - 2, v.g.csize);
    }
    WindowOnDirectory(v, f, s);
  }

  // ----- f_sync

  /** `move_window` to the directory sector, on behalf of the file. */
  method LoadDirectory(fp: Fil, s: nat) returns (res: FResult)
    requires fp.Open() && DirectorySector(fp.V(), fp.chain, s)
    modifies fp.fs`wflag, fp.fs`winsect, fp.fs`marks, fp.fs.win, fp.fs.disk
    ensures fp.Open() && fp.Data() == old(fp.Data()) && fp.fs.Img() == old(fp.fs.Img()) && fp.fs.Grows()
    ensures res == Ok || (res == DiskErr && fp.fs.disk.mayFail)
    ensures res == Ok ==> fp.fs.winsect == s < |fp.fs.Img()| && fp.fs.win[..] == fp.fs.Img()[s]
  {
    hide FatFs.Ready, FatFs.Journaled, Traced, FatOf, Good, Content, FatFs.Img, MapPrefix, WindowApart;
    ghost var v, f := fp.V(), fp.F();
    ImageShaped(fp.fs);
    VolMoved(v, f, NO_SECTOR);
    WindowOnDirectory(v, f, s);
    res := MoveWindow(fp.fs, s);
  }

  /** The directory entry in the loaded window is rewritten. */
  method StoreSize(fp: Fil, s: nat, o: nat, tm: nat)
    requires fp.Open() && DirectorySector(fp.V(), fp.chain, s) && o + 32 <= fp.fs.geo.ss
    requires fp.fs.winsect == s < |fp.fs.Img()| && fp.fs.win[..] == fp.fs.Img()[s]
    modifies fp.fs`wflag, fp.fs`log, fp.fs.win
    ensures fp.Open() && fp.Data() == old(fp.Data()) && fp.fs.Grows() && fp.fs.Fat() == old(fp.fs.Fat())
    ensures |fp.fs.Img()| == |old(fp.fs.Img())| && s < |fp.fs.Img()| && Describes(fp.fs.geo, fp.fs.Img()[s], o, fp.sclust, fp.objsize)
    ensures Updated(fp.fs.geo, old(fp.fs.Img())[s], fp.fs.Img()[s], o, fp.sclust, fp.objsize, tm)
    ensures forall t :: 0 <= t < |fp.fs.Img()| && t != s ==> fp.fs.Img()[t] == old(fp.fs.Img())[t]
  {
    hide Geo.Sound, Journal, Agree, Blank, FatOf, Traced, Good, Content, MapPrefix, WindowApart, Describes, Updated;
    var fs := fp.fs;
    ghost var v, f, img, was := fp.V(), fp.F(), fs.Img(), fs.win[..];
    StartFits(fp);
    ImageShaped(fs);
    UpdateEntry(fs.geo, fs.win, o, fp.sclust, fp.objsize, tm);
    EditKeeps(v, f, s, fs.win[..]);
    EditedIs(fs.geo, fs.disk.sectors, fs.wflag, s, was, fs.win[..]);
    StillTraced(fs.geo, fs.log, fs.fats, img, fs.Edited());
    Touch(fs);
  }

  /** The start cluster fits the directory entry's field. */
  lemma StartFits(fp: Fil)
    requires fp.Open()
    ensures fp.sclust < TWO32 && fp.objsize < TWO32 && (fp.fs.geo.fsType != Fat32 ==> fp.sclust < 0x1_0000)
    ensures fp.fs.win.Length == fp.fs.geo.ss
  {
    hide FatFs.Journaled, Traced, FatOf, Content, FatFs.Img, MapPrefix;
    FileFacts(fp.V(), fp.F());
  }

  /** The medium alone, without window or file buffer, holds the file: its FAT, its bytes and
      its directory entry. */
  ghost predicate Durable(fp: Fil, s: nat, o: nat)
    reads fp`dirty, fp`objsize, fp`fptr, fp`clust, fp`sect, fp`chain, fp`bix, fp`sclust, fp.buf
    reads fp.fs`wflag, fp.fs`winsect, fp.fs.win, fp.fs.disk
  {
    var g, img := fp.fs.geo, Blank(fp.fs.geo, fp.fs.disk.sectors);
    && !fp.fs.wflag && !fp.dirty
    && FatOf(g, img) == fp.fs.Fat() && GoodVol(Vol(g, img, NO_SECTOR), fp.chain)
    && Prefix(Flat(View(g, img, fp.chain)), fp.objsize) == fp.Data()
    && s < |fp.fs.disk.sectors| && Describes(g, fp.fs.disk.sectors[s], o, fp.sclust, fp.objsize)
  }

  /** With nothing pending in the window or the buffer, the medium holds the file. */
  lemma NothingPending(fp: Fil, s: nat, o: nat)
    requires fp.Open() && !fp.fs.wflag && !fp.dirty && s < |fp.fs.Img()| && !fp.fs.geo.Shadow(s)
    requires Describes(fp.fs.geo, fp.fs.Img()[s], o, fp.sclust, fp.objsize)
    ensures Durable(fp, s, o) && s < |fp.fs.disk.sectors| && fp.fs.disk.sectors[s] == fp.fs.Img()[s]
  {
    hide FatFs.Ready, FatFs.Journaled, Traced, FatOf, MapPrefix, GoodVol, View, Flat, SectorOf, WindowApart, Describes;
    var v, f := fp.V(), fp.F();
    VolMoved(v, f, NO_SECTOR);
    CleanView(v, f);
    ContentShape(v, f);
    BlankAt(fp.fs.geo, fp.fs.disk.sectors, s);
  }

  lemma DirtyBuffer(v: Vol, f: File)
    requires Good(v, f)
    ensures f.dirty ==> f.sect != 0
  {
    hide GoodVol, View, SectorOf;
  }

  /** Write back the file's buffer. */
  method FlushForSync(fp: Fil, s: nat) returns (res: FResult)
    requires fp.Open() && DirectorySector(fp.V(), fp.chain, s)
    modifies fp`dirty, fp.fs`marks, fp.fs`bypass, fp.fs.disk
    ensures fp.Open() && fp.Data() == old(fp.Data()) && fp.fs.Grows() && fp.fs.Fat() == old(fp.fs.Fat())
    ensures DirectorySector(fp.V(), fp.chain, s) && fp.F() == old(fp.F()).(dirty := fp.dirty)
    ensures res == Ok || (res == DiskErr && fp.fs.disk.mayFail)
    ensures res == Ok ==> !fp.dirty
    ensures |fp.fs.Img()| == |old(fp.fs.Img())| && fp.fs.Img()[s] == old(fp.fs.Img())[s]
  {
    hide FatFs.Ready, FatFs.Journaled, Traced, FatOf, Good, Content, FatFs.Img, MapPrefix, WindowApart, Others;
    ImageShaped(fp.fs);
    BufferElsewhere(fp.V(), fp.F(), s);
    DirtyBuffer(fp.V(), fp.F());
    res := FlushBuf(fp);
    ImageShaped(fp.fs);
  }

  /** `sync_fs` on behalf of the file. */
  method FinishSync(fp: Fil, s: nat, o: nat) returns (res: FResult)
    requires fp.Open() && !fp.dirty && s < |fp.fs.Img()| && !fp.fs.geo.Shadow(s)
    requires Describes(fp.fs.geo, fp.fs.Img()[s], o, fp.sclust, fp.objsize)
    modifies fp.fs`wflag, fp.fs`winsect, fp.fs`marks, fp.fs`fsiDirty, fp.fs.win, fp.fs.disk
    ensures fp.Open() && fp.Data() == old(fp.Data()) && fp.fs.Img() == old(fp.fs.Img()) && fp.fs.Grows()
    ensures res == Ok || (res == DiskErr && fp.fs.disk.mayFail)
    ensures res == Ok ==> Durable(fp, s, o) && s < |fp.fs.disk.sectors| && fp.fs.disk.sectors[s] == fp.fs.Img()[s]
  {
    hide FatFs.Ready, FatFs.Journaled, Traced, FatOf, Good, Content, FatFs.Img, MapPrefix, Durable, Describes;
    ghost var v, f := fp.V(), fp.F();
    VolumeBounds(fp.fs);
    Bounds(fp.fs.geo);
    WindowBelowData(v, f, fp.fs.geo.volbase + 1);
    res := SyncFs(fp.fs);
    if res == Ok { NothingPending(fp, s, o); }
  }

  /** The body of `f_sync`: buffer, directory entry and `sync_fs`. */
  method SyncEntry(fp: Fil, s: nat, o: nat, tm: nat) returns (res: FResult)
    requires fp.Open() && fp.err == Ok && DirectorySector(fp.V(), fp.chain, s) && o + 32 <= fp.fs.geo.ss
    modifies fp`dirty
    modifies fp.fs`wflag, fp.fs`winsect, fp.fs`marks, fp.fs`bypass, fp.fs`log, fp.fs`fsiDirty, fp.fs.win, fp.fs.disk
    ensures fp.Open() && fp.fs.Grows() && fp.Data() == old(fp.Data()) && fp.fs.Fat() == old(fp.fs.Fat())
    ensures fp.F() == old(fp.F()).(dirty := fp.dirty)
    ensures res == Ok || (res == DiskErr && fp.fs.disk.mayFail)
    ensures res == Ok ==> Durable(fp, s, o)
    ensures res == Ok ==>
      && s < |old(fp.fs.Img())| && s < |fp.fs.disk.sectors|
      && Updated(fp.fs.geo, old(fp.fs.Img())[s], fp.fs.disk.sectors[s], o, fp.sclust, fp.objsize, tm)
  {
    hide FatFs.Ready, FatFs.Journaled, Traced, FatOf, Good, Content, FatFs.Img, MapPrefix, WindowApart, Durable, Describes, Updated, Others;
    ImageShaped(fp.fs);
    res := FlushForSync(fp, s);
    if res != Ok { return; }
    res := LoadDirectory(fp, s);
    if res != Ok { return; }
    StoreSize(fp, s, o, tm);
    res := FinishSync(fp, s, o);
  }

  /** `f_sync` of a file whose directory entry is at offset o of sector s. On a changed file
      the sector on the medium, `now`, differs from what it was in the entry alone: the archive
      bit is set, the start cluster, the size and the time of modification are stored, the
      access date is 0; name, creation time and the rest are as they were. */
  method FSync(fp: Fil, s: nat, o: nat, tm: nat) returns (res: FResult, ghost was: Sector, ghost now: Sector)
    requires fp.Valid() && fp.err == Ok && DirectorySector(fp.V(), fp.chain, s) && o + 32 <= fp.fs.geo.ss
    modifies fp`dirty, fp`modified
    modifies fp.fs`wflag, fp.fs`winsect, fp.fs`marks, fp.fs`bypass, fp.fs`log, fp.fs`fsiDirty, fp.fs.win, fp.fs.disk
    ensures fp.Valid() && fp.fs.Grows() && fp.Data() == old(fp.Data()) && fp.fs.Fat() == old(fp.fs.Fat())
    ensures res == Ok || (res == DiskErr && fp.fs.disk.mayFail)
    ensures !old(fp.modified) ==> res == Ok && fp.fs.Img() == old(fp.fs.Img())
    ensures old(fp.modified) && res == Ok ==> !fp.modified && Durable(fp, s, o)
    ensures old(fp.modified) && res == Ok ==>
      && s < |old(fp.fs.Img())| && s < |fp.fs.disk.sectors| && was == old(fp.fs.Img())[s] && now == fp.fs.disk.sectors[s]
      && |was| == |now| && o + 32 <= |now| && forall k :: 0 <= k < |now| && !(o <= k < o + 32) ==> now[k] == was[k]
    ensures old(fp.modified) && res == Ok ==>
      && |was| == |now| && o + 32 <= |now| && now[o..o + 11] == was[o..o + 11]
      && now[o + 11] as nat == (if was[o + 11] as nat / 0x20 % 2 == 1 then was[o + 11] as nat else was[o + 11] as nat + 0x20)
      && now[o + 12..o + 18] == was[o + 12..o + 18] && now[o + 18] == 0 && now[o + 19] == 0
      && (if fp.fs.geo.fsType == Fat32 then LdWord(now, o + 20) == fp.sclust / 0x1_0000 else now[o + 20..o + 22] == was[o + 20..o + 22])
      && LdDword(now, o + 22) == tm % 0x1_0000_0000 && LdWord(now, o + 26) == fp.sclust % 0x1_0000
      && LdDword(now, o + 28) == fp.objsize
  {
    hide FatFs.Ready, FatFs.Journaled, Traced, FatOf, Good, Content, FatFs.Img, MapPrefix, WindowApart, Durable, LdWord, LdDword, U32, View, Flat, Holds, Geo.Sound, Geo.ClusterBytes, Times, Quotient, Remainder;
    was, now, res := [], [], Ok;
    if fp.modified {
      ImageShaped(fp.fs);
      was := fp.fs.Img()[s];
      res := SyncEntry(fp, s, o, tm);
      if res != Ok { return; }
      now := fp.fs.disk.sectors[s];
      fp.modified := false;
    }
  }

  /** After `f_sync` the file can be opened afresh from the medium with the same bytes: a new
      mount and the values of the directory entry are enough. */
  method SyncAndReopen(fp: Fil, s: nat, o: nat, tm: nat) returns (res: FResult, again: Fil?)
    requires fp.Valid() && fp.err == Ok && fp.modified && DirectorySector(fp.V(), fp.chain, s) && o + 32 <= fp.fs.geo.ss
    modifies fp`dirty, fp`modified
    modifies fp.fs`wflag, fp.fs`winsect, fp.fs`marks, fp.fs`bypass, fp.fs`log, fp.fs`fsiDirty, fp.fs.win, fp.fs.disk
    ensures res == Ok <==> again != null
    ensures res == Ok || (res == DiskErr && fp.fs.disk.mayFail)
    ensures res == Ok ==>
      again.Valid() && again.fs != fp.fs && again.Data() == old(fp.Data()) && again.objsize == old(fp.objsize)
  {
    hide FatFs.Ready, FatFs.Journaled, Traced, FatOf, Good, Content, FatFs.Img, MapPrefix, WindowApart, View, Flat, GoodVol;
    ghost var whole := fp.Data();
    again := null;
    ghost var was, now;
    res, was, now := FSync(fp, s, o, tm);
    if res != Ok { return; }
    var disk, g := fp.fs.disk, fp.fs.geo;
    ReopenFacts(fp);
    var win := new byte[disk.ss];
    var sec := disk.sectors[s];
    var start, size := LdClust(g, sec, o), LdDword(sec, o + 28);
    var fs := new FatFs(disk, g, win, NO_SECTOR, fp.fs.freeClst, fp.fs.lastClst, fp.fs.fsiOff);
    again := new Fil(fs, start, size, true, true, false, fp.chain);
  }

  lemma ReopenFacts(fp: Fil)
    requires fp.Open()
    ensures fp.fs.disk.Valid() && fp.fs.geo.Sound() && fp.fs.geo.FsInfoApart() && fp.fs.geo.End() <= fp.fs.disk.size
    ensures fp.fs.disk.ss == fp.fs.geo.ss && fp.fs.disk.size <= NO_SECTOR
    ensures Sized(fp.fs.geo, fp.chain, fp.objsize, 0)
    ensures fp.sclust == if fp.chain == [] then 0 else fp.chain[0]
  {
    hide FatFs.Journaled, Traced, FatOf, Content, FatFs.Img, MapPrefix, GoodVol;
  }
}
