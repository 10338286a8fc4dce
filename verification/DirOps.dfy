/** `dir_alloc`, `dir_register`, `dir_read` and `dir_find` over the window. */
module DirOps {
  import opened Allocator
  import opened Arith
  import opened Bytes
  import opened DirEntries
  import opened DirStretch
  import opened DirTable
  import opened DirWalk
  import opened FatEntries
  import opened FatTable
  import opened FileModel
  import opened Geometry
  import opened Lfn
  import opened LfnScan
  import opened Media
  import opened Window

  /** The sector of the current entry is loaded: entry k stands in the window at dp.dir. */
  method LoadEntry(dp: Dir, ghost k: nat) returns (res: FResult)
    requires dp.Open() && dp.At(k)
    modifies dp.fs`wflag, dp.fs`winsect, dp.fs`marks, dp.fs.win, dp.fs.disk
    ensures dp.fs.Valid() && dp.fs.Grows() && dp.Open() && dp.fs.Img() == old(dp.fs.Img())
    ensures res == Ok || (res == DiskErr && dp.fs.disk.mayFail)
    ensures dp.dir + 32 <= dp.fs.win.Length
    ensures res == Ok ==> Loaded(dp, k)
  {
    hide FatFs.Ready, FatFs.Journaled, Traced, FatOf, GoodTable, FatFs.Img, Limit, EntrySector, EntryOffset, ClusterOf, EntryAt;
    EntryThere(dp.fs.geo, dp.fs.Img(), dp.chain, k);
    ImageShaped(dp.fs);
    WindowSize(dp.fs);
    res := MoveWindow(dp.fs, dp.sect);
  }

  lemma WindowSize(fs: FatFs)
    requires fs.Valid()
    ensures fs.win.Length == fs.geo.ss
  {
  }

  /** The window holds the sector of entry k. */
  ghost predicate Loaded(dp: Dir, k: nat)
    reads dp`dir, dp`chain, dp.fs`wflag, dp.fs`winsect, dp.fs.win, dp.fs.disk
  {
    && dp.fs.winsect == EntrySector(dp.fs.geo, dp.chain, k) && dp.dir + 32 <= dp.fs.win.Length
    && dp.fs.winsect < |dp.fs.Img()| && dp.fs.win[..] == dp.fs.Img()[dp.fs.winsect]
    && dp.fs.win[dp.dir..dp.dir + 32] == EntryOf(dp.fs.geo, dp.fs.Img(), dp.chain, k)
  }

  // ----- dir_alloc

  ghost function DirVol(dp: Dir): Vol
    reads dp.fs`wflag, dp.fs`winsect, dp.fs.win, dp.fs.disk
  {
    Vol(dp.fs.geo, dp.fs.Img(), NO_SECTOR)
  }

  ghost function Listing(dp: Dir): seq<Entry>
    reads dp`chain, dp.fs`wflag, dp.fs`winsect, dp.fs.win, dp.fs.disk
  {
    Entries(dp.fs.geo, dp.fs.Img(), dp.chain)
  }

  /** The directory has at most been stretched, and no other chain has changed. */
  ghost predicate Grown(v: Vol, chain: seq<nat>, w: Vol, chain': seq<nat>)
  {
    && v.g == w.g && Extended(Entries(v.g, v.img, chain), Entries(w.g, w.img, chain')) && Others(v, chain, w, chain')
  }

  lemma GrownSame(v: Vol, chain: seq<nat>, w: Vol)
    requires w.g == v.g && w.img == v.img
    ensures Grown(v, chain, w, chain)
  {
    OthersSame(v, chain, w);
    hide Others, Entries;
  }

  lemma GrownTrans(u: Vol, a: seq<nat>, v: Vol, b: seq<nat>, w: Vol, c: seq<nat>)
    requires Grown(u, a, v, b) && Grown(v, b, w, c)
    ensures Grown(u, a, w, c)
  {
    OthersTrans(u, a, v, b, w, c);
    ExtendedTrans(Entries(u.g, u.img, a), Entries(v.g, v.img, b), Entries(w.g, w.img, c));
    hide Others, Entries, Extended;
  }

  lemma MovedGrows(v: Vol, chain: seq<nat>, w: Vol, chain': seq<nat>, k: nat)
    requires v.g == w.g && GoodTable(v.g, v.img, chain) && GoodTable(w.g, w.img, chain') && Moved(v.g, v.img, chain, w.img, chain', k)
    ensures Grown(v, chain, w, chain')
  {
    hide GoodTable, Stretched, Limit, Others, Entries;
    if k + 1 < Limit(v.g, chain) {
      GrownSame(v, chain, w);
    } else {
      var r := chain'[|chain|];
      StretchEntries(v.g, v.img, chain, w.img, r);
      StretchOthers(v, chain, w, r);
    }
  }

  /** The n entries in front of entry i are free, the one before them is not, and no run of
      nent free entries ends in front of i. */
  ghost predicate Counting(es: seq<Entry>, i: nat, n: nat, nent: nat)
  {
    && n <= i <= |es| && n < nent && FreeRun(es, i - n, n) && (n < i ==> !Free(es[i - n - 1]))
    && NoneBefore(es, i, nent)
  }

  lemma CountOne(es: seq<Entry>, fs: seq<Entry>, i: nat, n: nat, nent: nat)
    requires Counting(es, i, n, nent) && i < |es| && Extended(es, fs)
    ensures n < nent
    ensures Free(es[i]) && n + 1 == nent ==> FirstFit(es, i, nent)
    ensures Free(es[i]) && n + 1 < nent ==> Counting(fs, i + 1, n + 1, nent)
    ensures !Free(es[i]) ==> Counting(fs, i + 1, 0, nent)
  {
    assert forall j :: 0 <= j < |es| ==> fs[j] == es[j];
    if Free(es[i]) && n + 1 == nent {
      assert FreeRun(es, i - n, nent);
    } else {
      forall from: nat | from + nent <= i + 1 ensures !FreeRun(fs, from, nent) {
        if from + nent <= i { assert !FreeRun(es, from, nent); }
      }
    }
  }

  /** `dir_alloc`: the first fit for nent entries, ending at the current one; the table is
      stretched if it has none. */
  method DirAlloc(dp: Dir, nent: nat) returns (res: FResult, ghost k: nat)
    requires dp.Open() && nent > 0
    modifies dp`dptr, dp`clust, dp`sect, dp`dir, dp`chain
    modifies dp.fs`wflag, dp.fs`winsect, dp.fs`marks, dp.fs`log, dp.fs`fats, dp.fs`lastClst, dp.fs`freeClst, dp.fs`fsiDirty, dp.fs.win, dp.fs.disk
    ensures StaysSafe(dp.fs, res != DiskErr)
    ensures dp.fs.Valid() && dp.fs.Grows()
    ensures res == Ok || res == Denied || (res == DiskErr && dp.fs.disk.mayFail)
    ensures res != DiskErr ==> dp.Open() && Grown(old(DirVol(dp)), old(dp.chain), DirVol(dp), dp.chain)
    ensures res == Ok ==> dp.At(k) && FirstFit(Listing(dp), k, nent)
    ensures res == Denied ==>
      && NoneBefore(Listing(dp), |Listing(dp)|, nent)
      && (dp.chain == [] || |Listing(dp)| == MAX_DIR / SZDIRE || NoneFree(dp.fs.Fat()))
  {
    hide AllWellFormed, TornLast;
    hide FatFs.Ready, FatFs.Journaled, Traced, FatOf, GoodTable, FatFs.Img, Limit, EntrySector, EntryOffset, ClusterOf, Grown, NoneFree, NoneBefore, FirstFit, Counting, Moved, EntryOf, Entries, Extended, FreeRun;
    ghost var v0, c0 := DirVol(dp), dp.chain;
    k := 0;
    GrownSame(v0, c0, v0);
    FirstEntry(dp.fs.geo, dp.fs.Img(), dp.chain);
    res := DirSdi(dp, 0);
    if res != Ok { return; }
    var n: nat := 0;
    CountStart(Listing(dp), nent);
    while true
      invariant old(AllWellFormed(dp.fs.fats)) ==> AllWellFormed(dp.fs.fats)
      invariant dp.Open() && dp.At(k) && dp.fs.Grows() && res == Ok
      invariant Grown(v0, c0, DirVol(dp), dp.chain) && Counting(Listing(dp), k, n, nent)
      decreases MAX_DIR / SZDIRE - k
    {
      LimitBound(dp.fs.geo, dp.chain);
      ghost var v1, c1, es, n1 := DirVol(dp), dp.chain, Listing(dp), n;
      res, n := Examine(dp, n, k);
      if res != Ok { return; }
      SameExtended(es);
      CountOne(es, es, k, n1, nent);
      if n == nent { return; }
      res := Advance(dp, k);
      if res == Denied {
        CountEnd(es, k + 1, n, nent);
        return;
      }
      if res != Ok { return; }
      GrownTrans(v0, c0, v1, c1, DirVol(dp), dp.chain);
      GrownExtends(v1, c1, DirVol(dp), dp.chain);
      CountOne(es, Listing(dp), k, n1, nent);
      k := k + 1;
    }
  }

  /** Is entry k free? n counts the free entries in a row. */
  method Examine(dp: Dir, n: nat, ghost k: nat) returns (res: FResult, n': nat)
    requires dp.Open() && dp.At(k)
    modifies dp.fs`wflag, dp.fs`winsect, dp.fs`marks, dp.fs.win, dp.fs.disk
    ensures dp.fs.Valid() && dp.fs.Grows() && dp.Open() && dp.fs.Img() == old(dp.fs.Img())
    ensures res == Ok || (res == DiskErr && dp.fs.disk.mayFail)
    ensures res == Ok ==> n' == if Free(Listing(dp)[k]) then n + 1 else 0
  {
    hide FatFs.Ready, FatFs.Journaled, Traced, FatOf, GoodTable, FatFs.Img, Limit, EntrySector, EntryOffset, ClusterOf, EntryOf;
    n' := 0;
    res := LoadEntry(dp, k);
    if res != Ok { return; }
    EntryFree(dp, k);
    if dp.fs.win[dp.dir] == DDEM || dp.fs.win[dp.dir] == 0 { n' := n + 1; }
  }

  /** The next entry, stretching the table if need be; the end of the table is reported as a refusal. */
  method Advance(dp: Dir, ghost k: nat) returns (res: FResult)
    requires dp.Open() && dp.At(k)
    modifies dp`dptr, dp`clust, dp`sect, dp`dir, dp`chain
    modifies dp.fs`wflag, dp.fs`winsect, dp.fs`marks, dp.fs`log, dp.fs`fats, dp.fs`lastClst, dp.fs`freeClst, dp.fs`fsiDirty, dp.fs.win, dp.fs.disk
    ensures StaysSafe(dp.fs, res != DiskErr)
    ensures dp.fs.Valid() && dp.fs.Grows()
    ensures res == Ok || res == Denied || (res == DiskErr && dp.fs.disk.mayFail)
    ensures res == Ok ==> dp.Open() && dp.At(k + 1) && Grown(old(DirVol(dp)), old(dp.chain), DirVol(dp), dp.chain)
    ensures res == Denied ==>
      && dp.Open() && dp.chain == old(dp.chain) && dp.fs.Img() == old(dp.fs.Img()) && k + 1 == |Listing(dp)|
      && (dp.chain == [] || |Listing(dp)| == MAX_DIR / SZDIRE || NoneFree(dp.fs.Fat()))
  {
    hide AllWellFormed, TornLast;
    hide FatFs.Ready, FatFs.Journaled, Traced, FatOf, GoodTable, FatFs.Img, Limit, EntrySector, EntryOffset, ClusterOf, Grown, NoneFree, Moved, EntryOf;
    ghost var v, c := DirVol(dp), dp.chain;
    res := DirNext(dp, true, k);
    if res == NoFile { res := Denied; }
    if res == Ok { MovedGrows(v, c, DirVol(dp), dp.chain, k); }
  }

  lemma CountStart(es: seq<Entry>, nent: nat)
    requires nent > 0
    ensures Counting(es, 0, 0, nent)
  {
  }

  lemma SameExtended(es: seq<Entry>)
    ensures Extended(es, es)
  {
  }

  lemma CountEnd(es: seq<Entry>, i: nat, n: nat, nent: nat)
    requires Counting(es, i, n, nent) && i == |es|
    ensures NoneBefore(es, |es|, nent)
  {
  }

  lemma GrownExtends(v: Vol, chain: seq<nat>, w: Vol, chain': seq<nat>)
    requires Grown(v, chain, w, chain')
    ensures Extended(Entries(v.g, v.img, chain), Entries(w.g, w.img, chain'))
  {
  }

  /** The first byte in the window tells whether the entry is free. */
  lemma EntryFree(dp: Dir, k: nat)
    requires dp.fs.Valid() && Loaded(dp, k) && k < Limit(dp.fs.geo, dp.chain)
    ensures Free(Listing(dp)[k]) <==> dp.fs.win[dp.dir] == DDEM || dp.fs.win[dp.dir] == 0
  {
    hide FatFs.Ready, FatFs.Journaled, Traced, FatFs.Img, Limit, EntrySector, EntryOf;
    assert dp.fs.win[dp.dir] == dp.fs.win[dp.dir..dp.dir + 32][0];
  }

  // ----- storing entries

  /** sclust names the table. */
  ghost predicate Rooted(dp: Dir)
    reads dp`chain
  {
    if dp.sclust != 0 then dp.chain != [] && dp.chain[0] == dp.sclust
    else if dp.fs.geo.fsType == Fat32 then dp.chain != [] && dp.chain[0] == dp.fs.geo.dirbase
    else dp.chain == []
  }

  /** A window on entry k whose 32 bytes have been rewritten as e; was is what it held. */
  ghost predicate Rewritten(dp: Dir, k: nat, img: Image, was: seq<byte>, e: Entry)
    reads dp`chain, dp.fs`wflag, dp.fs`winsect, dp.fs.win, dp.fs.disk
  {
    var fs, o := dp.fs, EntryOffset(dp.fs.geo, k);
    && fs.winsect == EntrySector(fs.geo, dp.chain, k) < |img| == |fs.disk.sectors| && img[fs.winsect] == was
    && Overlay(Blank(fs.geo, fs.disk.sectors), fs.wflag, fs.winsect, was) == img
    && (!fs.wflag ==> fs.disk.sectors[fs.winsect] == was)
    && o + 32 <= |was| && fs.win[..] == was[..o] + e + was[o + 32..]
  }

  /** The window is marked dirty after entry k was rewritten. */
  method Commit(dp: Dir, ghost k: nat, ghost img: Image, ghost was: seq<byte>, ghost e: Entry)
    requires dp.fs.Loaded() && Traced(dp.fs.geo, dp.fs.log, dp.fs.fats, img) && GoodTable(dp.fs.geo, img, dp.chain) && Rooted(dp)
    requires k < Limit(dp.fs.geo, dp.chain) && Rewritten(dp, k, img, was, e)
    modifies dp.fs`wflag, dp.fs`log
    ensures dp.Open() && dp.fs.Img() == SetEntry(dp.fs.geo, img, dp.chain, k, e) && dp.fs.Grows()
  {
    hide Geo.Sound, Journal, Agree, Blank, FatOf, Traced, GoodTable, Limit, EntrySector, EntryOffset;
    var fs := dp.fs;
    EntryThere(fs.geo, img, dp.chain, k);
    SetKeepsTable(fs.geo, img, dp.chain, k, e);
    EditedIs(fs.geo, fs.disk.sectors, fs.wflag, fs.winsect, was, fs.win[..]);
    assert fs.Edited() == SetEntry(fs.geo, img, dp.chain, k, e);
    StillTraced(fs.geo, fs.log, fs.fats, img, fs.Edited());
    Touch(fs);
  }

  /** What the window's bytes become when 32 of them are rewritten. */
  lemma RewrittenBytes(was: seq<byte>, now: seq<byte>, o: nat)
    requires SameOutside(was, now, o, o + 32) && o + 32 <= |was|
    ensures now == was[..o] + now[o..o + 32] + was[o + 32..]
  {
  }

  /** The facts of a loaded entry that editing the window leaves in place. */
  lemma BeforeEdit(dp: Dir, k: nat)
    requires dp.Open() && dp.At(k) && Loaded(dp, k)
    ensures dp.fs.Loaded() && Traced(dp.fs.geo, dp.fs.log, dp.fs.fats, dp.fs.Img()) && Rooted(dp)
    ensures Rewritten(dp, k, dp.fs.Img(), dp.fs.win[..], dp.fs.win[dp.dir..dp.dir + 32])
  {
    EntryThere(dp.fs.geo, dp.fs.Img(), dp.chain, k);
    ImageShaped(dp.fs);
    hide Geo.Sound, Journal, Agree, Blank, FatOf, Traced, GoodTable, Limit, EntrySector, EntryOffset, ClusterOf, EntryOf;
    RewrittenBytes(dp.fs.win[..], dp.fs.win[..], dp.dir);
  }

  /** One long name entry is loaded, filled and marked dirty. */
  method StorePiece(dp: Dir, lfnbuf: array<nat>, ord: nat, sum: byte, ghost k: nat, ghost name: seq<nat>) returns (res: FResult, ghost e: Entry)
    requires dp.Open() && dp.At(k) && lfnbuf as object != dp.fs.win
    requires Names(lfnbuf[..], name) && 1 <= ord <= 20 && (ord - 1) * 13 < |name| <= MAX_LFN
    modifies dp.fs`wflag, dp.fs`winsect, dp.fs`marks, dp.fs`log, dp.fs.win, dp.fs.disk
    ensures dp.fs.Valid() && dp.fs.Grows()
    ensures res == Ok || (res == DiskErr && dp.fs.disk.mayFail)
    ensures res == Ok ==> dp.Open() && IsPiece(e, name, ord, sum) && dp.fs.Img() == SetEntry(dp.fs.geo, old(dp.fs.Img()), dp.chain, k, e)
  {
    hide FatFs.Ready, FatFs.Journaled, Traced, FatOf, GoodTable, Limit, EntrySector, EntryOffset, ClusterOf, EntryOf, SetEntry, Geo.Sound, Journal, Agree, Blank, Overlay, IsPiece;
    e := Zeros(32);
    res := LoadEntry(dp, k);
    if res != Ok { return; }
    BeforeEdit(dp, k);
    ghost var img, was := dp.fs.Img(), dp.fs.win[..];
    PutLfn(lfnbuf, dp.fs.win, dp.dir, ord, sum, name);
    RewrittenBytes(was, dp.fs.win[..], dp.dir);
    e := dp.fs.win[dp.dir..dp.dir + 32];
    assert dp.fs.win[..][dp.dir..dp.dir + 32] == e;
    Commit(dp, k, img, was, e);
  }

  /** A fresh short entry for fn: the name and the case flags, the rest zero. */
  ghost predicate IsShort(e: Entry, fn: seq<byte>)
  {
    && |fn| == 12 && e[..11] == fn[..11] && e[11] == 0 && e[12] as nat == fn[11] as nat / 8 % 4 * 8
    && forall i :: 13 <= i < 32 ==> e[i] == 0
  }

  /** "Set SFN entry" in the window. */
  method PutShort(win: array<byte>, at: nat, fn: seq<byte>)
    requires at + 32 <= win.Length && |fn| == 12
    modifies win
    ensures IsShort(win[at..at + 32], fn) && SameOutside(old(win[..]), win[..], at, at + 32)
  {
    PokeBytes(win, at, Zeros(32));
    SliceAt(win[..], at, Zeros(32));
    PokeBytes(win, at, fn[..11]);
    SliceAt(win[..], at, fn[..11]);
    win[at + 12] := fn[11] as nat / 8 % 4 * 8;
    ghost var e: Entry := win[at..at + 32];
    assert e[..11] == fn[..11];
  }

  lemma SliceAt(s: seq<byte>, i: nat, d: seq<byte>)
    requires i + |d| <= |s| && s[i..i + |d|] == d
    ensures forall k :: i <= k < i + |d| ==> s[k] == d[k - i]
  {
    forall k | i <= k < i + |d| ensures s[k] == d[k - i] { assert s[i..i + |d|][k - i] == s[k]; }
  }

  method StoreShort(dp: Dir, fn: seq<byte>, ghost k: nat) returns (res: FResult, ghost e: Entry)
    requires dp.Open() && dp.At(k) && |fn| == 12
    modifies dp.fs`wflag, dp.fs`winsect, dp.fs`marks, dp.fs`log, dp.fs.win, dp.fs.disk
    ensures dp.fs.Valid() && dp.fs.Grows()
    ensures res == Ok || (res == DiskErr && dp.fs.disk.mayFail)
    ensures res == Ok ==> dp.Open() && IsShort(e, fn) && dp.fs.Img() == SetEntry(dp.fs.geo, old(dp.fs.Img()), dp.chain, k, e)
  {
    hide FatFs.Ready, FatFs.Journaled, Traced, FatOf, GoodTable, Limit, EntrySector, EntryOffset, ClusterOf, EntryOf, SetEntry, Geo.Sound, Journal, Agree, Blank, Overlay, IsShort;
    e := Zeros(32);
    res := LoadEntry(dp, k);
    if res != Ok { return; }
    BeforeEdit(dp, k);
    ghost var img, was := dp.fs.Img(), dp.fs.win[..];
    PutShort(dp.fs.win, dp.dir, fn);
    RewrittenBytes(was, dp.fs.win[..], dp.dir);
    e := dp.fs.win[dp.dir..dp.dir + 32];
    assert dp.fs.win[..][dp.dir..dp.dir + 32] == e;
    Commit(dp, k, img, was, e);
  }

  // ----- dir_register

  predicate WithLfn(fn: seq<byte>)
    requires |fn| == 12
  {
    fn[11] as nat / 2 % 2 == 1
  }

  /** The block of entries for a name. */
  ghost predicate BlockFor(block: seq<Entry>, fn: seq<byte>, name: seq<nat>)
  {
    && |fn| == 12 && block != [] && IsShort(block[|block| - 1], fn)
    && (if WithLfn(fn) then IsBlock(block, name) else |block| == 1)
  }

  /** Pieces n .. r + 1 of the name. */
  ghost predicate SomePieces(es: seq<Entry>, name: seq<nat>, n: nat, sum: byte)
  {
    |es| <= n && forall j :: 0 <= j < |es| ==> IsPiece(es[j], name, n - j, sum)
  }

  /** The long name entries, from the first of the block on. */
  method StorePieces(dp: Dir, lfnbuf: array<nat>, n: nat, sum: byte, ghost from: nat, ghost name: seq<nat>) returns (res: FResult, ghost es: seq<Entry>)
    requires dp.Open() && dp.At(from) && lfnbuf as object != dp.fs.win && Names(lfnbuf[..], name) && Plain(name)
    requires n == Pieces(name) && from + n < |Listing(dp)|
    modifies dp`dptr, dp`clust, dp`sect, dp`dir, dp`chain
    modifies dp.fs`wflag, dp.fs`winsect, dp.fs`marks, dp.fs`log, dp.fs`fats, dp.fs`lastClst, dp.fs`freeClst, dp.fs`fsiDirty, dp.fs.win, dp.fs.disk
    ensures StaysSafe(dp.fs, res != DiskErr)
    ensures dp.fs.Valid() && dp.fs.Grows()
    ensures res == Ok || (res == DiskErr && dp.fs.disk.mayFail)
    ensures res == Ok ==>
      && dp.Open() && dp.chain == old(dp.chain) && dp.At(from + n) && |es| == n && SomePieces(es, name, n, sum)
      && from + n < |old(Listing(dp))| && Listing(dp) == Insert(old(Listing(dp)), from, es)
      && Others(old(DirVol(dp)), dp.chain, DirVol(dp), dp.chain)
  {
    hide AllWellFormed, TornLast;
    hide FatFs.Ready, FatFs.Journaled, Traced, FatOf, GoodTable, FatFs.Img, EntrySector, EntryOffset, ClusterOf, EntryOf, SetEntry, Others, IsPiece, Entries, Limit;
    es := [];
    ghost var v0, c0, b := DirVol(dp), dp.chain, Listing(dp);
    OthersSame(v0, c0, v0);
    LastPiece(name);
    InsertNone(b, from);
    res := Ok;
    var nent := n;
    while nent > 0
      invariant old(AllWellFormed(dp.fs.fats)) ==> AllWellFormed(dp.fs.fats)
      invariant nent <= n && dp.Open() && dp.chain == c0 && dp.At(from + (n - nent)) && dp.fs.Grows() && res == Ok
      invariant lfnbuf[..] == old(lfnbuf[..])
      invariant |es| == n - nent && SomePieces(es, name, n, sum) && |Listing(dp)| == |b|
      invariant Listing(dp) == Insert(b, from, es)
      invariant Others(v0, c0, DirVol(dp), c0)
    {
      ghost var e, v1 := Zeros(32), DirVol(dp);
      res, e := PieceAndNext(dp, lfnbuf, nent, sum, from + (n - nent), name);
      if res != Ok { return; }
      OthersTrans(v0, c0, v1, c0, DirVol(dp), c0);
      InsertOne(b, from, es, e);
      es := es + [e];
      nent := nent - 1;
    }
  }

  lemma InsertNone(b: seq<Entry>, from: nat)
    requires from <= |b|
    ensures Insert(b, from, []) == b
  {
  }

  lemma InsertOne(b: seq<Entry>, from: nat, es: seq<Entry>, e: Entry)
    requires from + |es| < |b|
    ensures Insert(b, from, es)[from + |es| := e] == Insert(b, from, es + [e])
  {
  }

  /** Store one piece and step on. */
  method PieceAndNext(dp: Dir, lfnbuf: array<nat>, ord: nat, sum: byte, ghost k: nat, ghost name: seq<nat>) returns (res: FResult, ghost e: Entry)
    requires dp.Open() && dp.At(k) && lfnbuf as object != dp.fs.win && k + 1 < |Listing(dp)|
    requires Names(lfnbuf[..], name) && 1 <= ord <= 20 && (ord - 1) * 13 < |name| <= MAX_LFN
    modifies dp`dptr, dp`clust, dp`sect, dp`dir, dp`chain
    modifies dp.fs`wflag, dp.fs`winsect, dp.fs`marks, dp.fs`log, dp.fs`fats, dp.fs`lastClst, dp.fs`freeClst, dp.fs`fsiDirty, dp.fs.win, dp.fs.disk
    ensures StaysSafe(dp.fs, res != DiskErr)
    ensures dp.fs.Valid() && dp.fs.Grows()
    ensures res == Ok || (res == DiskErr && dp.fs.disk.mayFail)
    ensures res == Ok ==>
      && dp.Open() && dp.chain == old(dp.chain) && dp.At(k + 1) && IsPiece(e, name, ord, sum)
      && k < |old(Listing(dp))| && Listing(dp) == old(Listing(dp))[k := e]
      && Others(old(DirVol(dp)), dp.chain, DirVol(dp), dp.chain)
  {
    hide AllWellFormed, TornLast;
    hide FatFs.Ready, FatFs.Journaled, Traced, FatOf, GoodTable, FatFs.Img, EntrySector, EntryOffset, ClusterOf, EntryOf, SetEntry, Others, IsPiece, Limit;
    ghost var v := DirVol(dp);
    res, e := StorePiece(dp, lfnbuf, ord, sum, k, name);
    if res != Ok { return; }
    SetIsUpdate(v.g, v.img, dp.chain, k, e);
    SetOthers(v, dp.chain, k, e);
    res := DirNext(dp, false, k);
  }

  /** The name's length. */
  method NameLength(lfnbuf: array<nat>, ghost name: seq<nat>) returns (nlen: nat)
    requires Names(lfnbuf[..], name)
    ensures nlen == |name|
  {
    nlen := 0;
    while lfnbuf[nlen] != 0
      invariant nlen <= |name|
      decreases |name| - nlen
    {
      assert lfnbuf[..|name|][nlen] == name[nlen];
      nlen := nlen + 1;
    }
  }

  /** The block found by dir_alloc is filled; k is its last entry. */
  method FillBlock(dp: Dir, lfnbuf: array<nat>, fn: seq<byte>, n: nat, ghost k: nat, ghost name: seq<nat>) returns (res: FResult, ghost block: seq<Entry>)
    requires dp.Open() && dp.At(k) && lfnbuf as object != dp.fs.win && Names(lfnbuf[..], name) && Plain(name)
    requires |fn| == 12 && n <= k && n == if WithLfn(fn) then Pieces(name) else 0
    modifies dp`dptr, dp`clust, dp`sect, dp`dir, dp`chain
    modifies dp.fs`wflag, dp.fs`winsect, dp.fs`marks, dp.fs`log, dp.fs`fats, dp.fs`lastClst, dp.fs`freeClst, dp.fs`fsiDirty, dp.fs.win, dp.fs.disk
    ensures StaysSafe(dp.fs, res != DiskErr)
    ensures dp.fs.Valid() && dp.fs.Grows()
    ensures res == Ok || (res == DiskErr && dp.fs.disk.mayFail)
    ensures res == Ok ==>
      && dp.Open() && dp.chain == old(dp.chain) && dp.At(k) && BlockFor(block, fn, name) && |block| == n + 1
      && k < |old(Listing(dp))| && Listing(dp) == Insert(old(Listing(dp)), k - n, block)
      && Others(old(DirVol(dp)), dp.chain, DirVol(dp), dp.chain)
  {
    hide AllWellFormed, TornLast;
    hide FatFs.Ready, FatFs.Journaled, Traced, FatOf, GoodTable, FatFs.Img, EntrySector, EntryOffset, ClusterOf, EntryOf, SetEntry, Others, IsPiece, Limit, IsShort, Entries, BlockFor, Pieces, SumSfn, Insert, Names, Plain;
    ghost var v0, c0, b := DirVol(dp), dp.chain, Listing(dp);
    ghost var es := [];
    block := [];
    OthersSame(v0, c0, v0);
    InsertNone(b, k);
    res := Ok;
    var sum := SumOf(fn);
    if n > 0 {
      res, es := LongEntries(dp, lfnbuf, n, sum, k, name);
      if res != Ok { return; }
    }
    ghost var v1, e := DirVol(dp), Zeros(32);
    res, e := ShortEntry(dp, fn, k);
    if res != Ok { return; }
    OthersTrans(v0, c0, v1, c0, DirVol(dp), c0);
    InsertOne(b, k - n, es, e);
    block := es + [e];
    BlockMade(es, e, fn, name, n, sum);
  }

  /** The short entry of the block. */
  method ShortEntry(dp: Dir, fn: seq<byte>, ghost k: nat) returns (res: FResult, ghost e: Entry)
    requires dp.Open() && dp.At(k) && |fn| == 12
    modifies dp.fs`wflag, dp.fs`winsect, dp.fs`marks, dp.fs`log, dp.fs.win, dp.fs.disk
    ensures dp.fs.Valid() && dp.fs.Grows()
    ensures res == Ok || (res == DiskErr && dp.fs.disk.mayFail)
    ensures res == Ok ==>
      && dp.Open() && IsShort(e, fn) && k < |old(Listing(dp))| && Listing(dp) == old(Listing(dp))[k := e]
      && Others(old(DirVol(dp)), dp.chain, DirVol(dp), dp.chain)
  {
    hide FatFs.Ready, FatFs.Journaled, Traced, FatOf, GoodTable, FatFs.Img, EntrySector, EntryOffset, ClusterOf, EntryOf, SetEntry, Others, Limit, IsShort;
    ghost var v := DirVol(dp);
    res, e := StoreShort(dp, fn, k);
    if res != Ok { return; }
    SetIsUpdate(v.g, v.img, dp.chain, k, e);
    SetOthers(v, dp.chain, k, e);
  }

  lemma BlockMade(es: seq<Entry>, e: Entry, fn: seq<byte>, name: seq<nat>, n: nat, sum: byte)
    requires |fn| == 12 && IsShort(e, fn) && |es| == n && n == (if WithLfn(fn) then Pieces(name) else 0)
    requires sum == SumSfn(fn) && SomePieces(es, name, n, sum)
    ensures BlockFor(es + [e], fn, name)
  {
    SumPrefix(e, fn, 11);
    hide IsPiece;
  }

  /** Go back to the first entry of the block and store the pieces. */
  method LongEntries(dp: Dir, lfnbuf: array<nat>, n: nat, sum: byte, ghost k: nat, ghost name: seq<nat>) returns (res: FResult, ghost es: seq<Entry>)
    requires dp.Open() && dp.At(k) && lfnbuf as object != dp.fs.win && Names(lfnbuf[..], name) && Plain(name)
    requires 0 < n <= k && n == Pieces(name)
    modifies dp`dptr, dp`clust, dp`sect, dp`dir, dp`chain
    modifies dp.fs`wflag, dp.fs`winsect, dp.fs`marks, dp.fs`log, dp.fs`fats, dp.fs`lastClst, dp.fs`freeClst, dp.fs`fsiDirty, dp.fs.win, dp.fs.disk
    ensures StaysSafe(dp.fs, res != DiskErr)
    ensures dp.fs.Valid() && dp.fs.Grows()
    ensures res == Ok || (res == DiskErr && dp.fs.disk.mayFail)
    ensures res == Ok ==>
      && dp.Open() && dp.chain == old(dp.chain) && dp.At(k) && |es| == n && SomePieces(es, name, n, sum)
      && k < |old(Listing(dp))| && Listing(dp) == Insert(old(Listing(dp)), k - n, es)
      && Others(old(DirVol(dp)), dp.chain, DirVol(dp), dp.chain)
  {
    hide AllWellFormed, TornLast;
    hide FatFs.Ready, FatFs.Journaled, Traced, FatOf, GoodTable, FatFs.Img, EntrySector, EntryOffset, ClusterOf, EntryOf, SetEntry, Others, IsPiece, Limit;
    es := [];
    assert dp.dptr - n * SZDIRE == (k - n) * SZDIRE;
    res := DirSdi(dp, dp.dptr - n * SZDIRE);
    if res != Ok { return; }
    res, es := StorePieces(dp, lfnbuf, n, sum, k - n, name);
  }

  /** The number of entries of a block, and the bytes of its short entry. */
  lemma BlockBytes(block: seq<Entry>, fn: seq<byte>, name: seq<nat>)
    requires BlockFor(block, fn, name)
    ensures |block| == if fn[11] as nat / 2 % 2 == 1 then (|name| + 12) / 13 + 1 else 1
    ensures var e := block[|block| - 1];
      && e[..11] == fn[..11] && e[12] as nat == fn[11] as nat / 8 % 4 * 8
      && forall i :: 11 <= i < 32 && i != 12 ==> e[i] == 0
  {
    hide IsPiece;
  }

  /** `dir_register`, once the short name is settled: the entries go to the first fit, and
      nothing else changes but that the directory may have been stretched. */
  method DirRegister(dp: Dir, lfnbuf: array<nat>, fn: seq<byte>, ghost name: seq<nat>)
    returns (res: FResult, ghost k: nat, ghost space: seq<Entry>, ghost block: seq<Entry>)
    requires dp.Open() && lfnbuf as object != dp.fs.win && Names(lfnbuf[..], name) && Plain(name) && |fn| == 12
    modifies dp`dptr, dp`clust, dp`sect, dp`dir, dp`chain
    modifies dp.fs`wflag, dp.fs`winsect, dp.fs`marks, dp.fs`log, dp.fs`fats, dp.fs`lastClst, dp.fs`freeClst, dp.fs`fsiDirty, dp.fs.win, dp.fs.disk
    ensures StaysSafe(dp.fs, res != DiskErr)
    ensures dp.fs.Valid() && dp.fs.Grows()
    ensures res == Ok || res == Denied || res == InvalidName || (res == DiskErr && dp.fs.disk.mayFail)
    ensures res == InvalidName <==> fn[11] as nat / 0x20 % 2 == 1 || fn[11] as nat / 0x80 == 1
    ensures res == InvalidName ==> dp.fs.Img() == old(dp.fs.Img())
    ensures res == Ok || res == Denied ==>
      && dp.Open() && Others(old(DirVol(dp)), old(dp.chain), DirVol(dp), dp.chain) && Extended(old(Listing(dp)), space)
    ensures res == Ok ==>
      && BlockFor(block, fn, name) && FirstFit(space, k, |block|) && dp.At(k)
      && k + 1 <= |space| && k + 1 >= |block| && Listing(dp) == Insert(space, k + 1 - |block|, block)
    ensures res == Ok ==>
      && |block| == (if fn[11] as nat / 2 % 2 == 1 then (|name| + 12) / 13 + 1 else 1)
      && var e := block[|block| - 1];
      && e[..11] == fn[..11] && e[12] as nat == fn[11] as nat / 8 % 4 * 8
      && forall i :: 11 <= i < 32 && i != 12 ==> e[i] == 0
    ensures res == Denied ==>
      && Listing(dp) == space && NoneBefore(space, |space|, if fn[11] as nat / 2 % 2 == 1 then (|name| + 12) / 13 + 1 else 1)
      && (dp.chain == [] || |space| == 65536 || NoneFree(dp.fs.Fat()))
  {
    hide AllWellFormed, TornLast;
    hide FatFs.Ready, FatFs.Journaled, Traced, FatOf, GoodTable, FatFs.Img, EntrySector, EntryOffset, ClusterOf, EntryOf, SetEntry, Others, IsPiece, Limit, NoneFree, NoneBefore, BlockFor, Extended, Insert, FreeRun, Plain, Names;
    ghost var v0, c0 := DirVol(dp), dp.chain;
    k, space, block := 0, Listing(dp), [];
    if fn[11] as nat / 0x20 % 2 == 1 || fn[11] as nat / 0x80 == 1 { return InvalidName, k, space, block; }
    var nlen := NameLength(lfnbuf, name);
    var n := if WithLfn(fn) then (nlen + 12) / 13 else 0;
    res, k := DirAlloc(dp, n + 1);
    if res == DiskErr { return; }
    space := Listing(dp);
    if res != Ok { return; }
    ghost var v1 := DirVol(dp);
    res, block := FillBlock(dp, lfnbuf, fn, n, k, name);
    if res != Ok { return; }
    BlockBytes(block, fn, name);
    OthersTrans(v0, c0, v1, dp.chain, DirVol(dp), dp.chain);
  }
}
