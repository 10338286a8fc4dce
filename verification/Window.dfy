/** The volume object and its one-sector write-back window. */
module Window {
  import opened Arith
  import opened Bytes
  import opened FatEntries
  import opened Geometry
  import opened Media

  datatype FResult = Ok | DiskErr | IntErr | NoFile | Denied | NotEnoughCore | NoFilesystem | MkfsAborted | InvalidParameter | Locked | TooManyOpenFiles | InvalidName

  const NO_SECTOR: nat := 0xFFFF_FFFF

  /** The sectors of a medium as a volume image. */
  function Blank(g: Geo, secs: seq<Sector>): (img: Image)
    ensures |img| == |secs|
  {
    seq(|secs|, s requires 0 <= s < |secs| => if g.Shadow(s) then [] else secs[s])
  }

  /** Equal on every sector outside `except`. */
  ghost predicate Agree(a: Image, b: Image, except: set<nat>)
  {
    |a| == |b| && forall s :: 0 <= s < |a| && s !in except ==> a[s] == b[s]
  }

  /** Prefix consistency: each state the medium has been in is the metadata image of
      some program step, and those steps never run backwards. `bypass` holds the
      sectors that file data reached without going through the window. */
  ghost predicate Journal(g: Geo, trace: seq<seq<Sector>>, log: seq<Image>, marks: seq<nat>, bypass: set<nat>)
  {
    && |marks| == |trace|
    && (forall i :: 0 <= i < |trace| ==> marks[i] < |log| && Agree(Blank(g, trace[i]), log[marks[i]], bypass))
    && (forall i, j :: 0 <= i <= j < |trace| ==> marks[i] <= marks[j])
  }

  /** On FAT12 the two bytes of an entry may lie in two sectors. f is then what the FAT reads
      between the two stores of a put_fat. */
  ghost predicate Torn(g: Geo, fat: seq<nat>, f: seq<nat>)
  {
    g.fsType == Fat12 && exists c: nat, v: nat :: TornBy(g, fat, f, c, v)
  }

  ghost predicate TornBy(g: Geo, fat: seq<nat>, f: seq<nat>, c: nat, v: nat)
  {
    g.ValidCluster(c) && c < |fat| && Straddles(g, c) && f == HalfPut(fat, c, v)
  }

  /** f is a FAT that some completed put_fat produced, or lies half way to one. */
  ghost predicate Recorded(g: Geo, fats: seq<seq<nat>>, f: seq<nat>)
  {
    f in fats || exists i :: 0 <= i < |fats| - 1 && Torn(g, fats[i], f)
  }

  /** Every metadata image so far holds a recorded FAT, the current one the last. */
  ghost predicate Traced(g: Geo, log: seq<Image>, fats: seq<seq<nat>>, img: Image)
  {
    && |fats| > 0 && fats[|fats| - 1] == FatOf(g, img)
    && forall j :: 0 <= j < |log| ==> Recorded(g, fats, FatOf(g, log[j]))
  }

  lemma StillRecorded(g: Geo, fats: seq<seq<nat>>, more: seq<seq<nat>>, f: seq<nat>)
    requires Recorded(g, fats, f) && fats <= more
    ensures Recorded(g, more, f)
  {
    hide Torn;
    if f !in fats {
      var i :| 0 <= i < |fats| - 1 && Torn(g, fats[i], f);
      assert Torn(g, more[i], f);
    }
  }

  /** The state of `FATFS` that changes after mounting. */
  class FatFs {
    const disk: Disk
    const geo: Geo
    const win: array<byte>

    var wflag: bool
    var winsect: nat
    var lastClst: nat
    var freeClst: nat
    var fsiOff: bool   // b7 of fsi_flag
    var fsiDirty: bool // b0 of fsi_flag

    // the metadata image after each update of the window, in program order
    ghost var log: seq<Image>
    // the FAT at mount and after each put_fat, in program order; on FAT12 also the torn FAT
    // that a put_fat left when the disk failed between its two sectors
    ghost var fats: seq<seq<nat>>
    ghost var marks: seq<nat>
    ghost var bypass: set<nat>

    /** What the volume holds: the medium overlaid with the dirty window. */
    ghost function Img(): Image
      reads this`wflag, this`winsect, win, disk
    {
      Overlay(Blank(geo, disk.sectors), wflag, winsect, win[..])
    }

    ghost predicate Ready()
      reads this`wflag, this`winsect, win, disk
    {
      && geo.Sound() && geo.FsInfoApart()
      && geo.End() <= disk.size
      && disk.Valid() && disk.ss == geo.ss == win.Length
      && (wflag ==> winsect < disk.size && !geo.Shadow(winsect))
      && (!wflag && winsect < disk.size && !geo.Shadow(winsect) ==> win[..] == disk.sectors[winsect])
    }

    ghost predicate Journaled()
      reads this`wflag, this`winsect, this`log, this`marks, this`bypass, win, disk
    {
      && |marks| == |disk.trace| > 0 && |log| > 0
      && disk.trace[|disk.trace| - 1] == disk.sectors
      && Agree(Img(), log[|log| - 1], bypass)
      && Journal(geo, disk.trace, log, marks, bypass)
      && forall s :: s in bypass ==> s >= geo.database
    }

    ghost predicate Valid()
      reads this`wflag, this`winsect, this`log, this`fats, this`marks, this`bypass, win, disk
    {
      Ready() && Journaled() && Traced(geo, log, fats, Img())
    }

    /** The image once the window's bytes are taken as the sector's new contents. */
    ghost function Edited(): Image
      reads this`wflag, this`winsect, win, disk
    {
      Overlay(Blank(geo, disk.sectors), true, winsect, win[..])
    }

    /** Valid but for the bytes of the window, which may have been edited. */
    ghost predicate Loaded()
      reads this`wflag, this`winsect, this`log, this`marks, this`bypass, win, disk
    {
      && geo.Sound() && geo.FsInfoApart()
      && geo.End() <= disk.size
      && disk.Valid() && disk.ss == geo.ss == win.Length
      && winsect < disk.size && !geo.Shadow(winsect)
      && |marks| == |disk.trace| > 0 && |log| > 0
      && disk.trace[|disk.trace| - 1] == disk.sectors
      && Journal(geo, disk.trace, log, marks, bypass)
      && (forall s :: s in bypass ==> s >= geo.database)
    }

    ghost predicate Editable()
      reads this`wflag, this`winsect, this`log, this`fats, this`marks, this`bypass, win, disk
    {
      Loaded() && Traced(geo, log, fats, Edited())
    }

    /** Both FATs agree but for a sector still waiting in the window. */
    ghost predicate Mirrored()
      reads this`wflag, this`winsect, disk
    {
      Copies(geo, disk.sectors, wflag, winsect)
    }

    /** The FAT as the volume image holds it. */
    ghost function Fat(): seq<nat>
      reads this`wflag, this`winsect, win, disk
    {
      FatOf(geo, Img())
    }

    /** Nothing recorded is ever taken back. */
    twostate predicate Grows()
      reads this`log, this`fats, this`marks, disk
    {
      && old(log) <= log && old(fats) <= fats
      && old(marks) <= marks && old(disk.trace) <= disk.trace
    }

    /** The volume as `find_volume` leaves it: the window holds the sector read last. */
    constructor (medium: Disk, layout: Geo, window: array<byte>, sect: nat, free: nat, last: nat, noFsInfo: bool)
      requires medium.Valid()
      requires layout.Sound() && layout.FsInfoApart() && layout.End() <= medium.size
      requires medium.ss == layout.ss == window.Length
      requires sect < medium.size ==> window[..] == medium.sectors[sect]
      modifies medium`trace
      ensures Valid() && disk == medium && geo == layout && win == window
      ensures Img() == Blank(layout, medium.sectors) && log == [Img()] && bypass == {}
      ensures !wflag && winsect == sect && freeClst == free && lastClst == last
      ensures fsiOff == noFsInfo && !fsiDirty && fats == [Fat()]
    {
      disk, geo, win := medium, layout, window;
      wflag, winsect := false, sect;
      lastClst, freeClst := last, free;
      fsiOff, fsiDirty := noFsInfo, false;
      log := [Blank(layout, medium.sectors)];
      fats := [FatOf(layout, Blank(layout, medium.sectors))];
      marks := [0];
      bypass := {};
      new;
      medium.trace := [medium.sectors];
    }
  }

  /** Metadata reach the medium in program order: each state the medium has been in holds, in
      every sector that file data did not reach directly, what the image held at some step,
      and a later state never shows an earlier step. The sectors below the data area, the
      FAT and the static root directory among them, are always covered. */
  lemma ProgramOrder(fs: FatFs, i: nat, j: nat)
    requires fs.Valid() && i <= j < |fs.disk.trace|
    ensures i < |fs.marks| && j < |fs.marks| && fs.marks[i] <= fs.marks[j] < |fs.log|
    ensures |fs.disk.trace[i]| == |fs.log[fs.marks[i]]|
    ensures forall s :: 0 <= s < |fs.disk.trace[i]| && !fs.geo.Shadow(s) && (s < fs.geo.database || s !in fs.bypass) ==>
      fs.disk.trace[i][s] == fs.log[fs.marks[i]][s]
  {
    hide FatFs.Ready, Traced;
    var image := Blank(fs.geo, fs.disk.trace[i]);
    assert Agree(image, fs.log[fs.marks[i]], fs.bypass);
    forall s | 0 <= s < |image| && !fs.geo.Shadow(s) && (s < fs.geo.database || s !in fs.bypass)
      ensures fs.disk.trace[i][s] == fs.log[fs.marks[i]][s]
    {
      BlankAt(fs.geo, fs.disk.trace[i], s);
      assert s !in fs.bypass;
    }
  }

  ghost function Overlay(img: Image, dirty: bool, at: nat, data: seq<byte>): (r: Image)
    ensures |r| == |img|
  {
    if dirty && at < |img| then img[at := data] else img
  }

  lemma BlankUpdate(g: Geo, secs: seq<Sector>, s: nat, data: seq<byte>)
    requires s < |secs|
    ensures g.Shadow(s) ==> Blank(g, secs[s := data]) == Blank(g, secs)
    ensures !g.Shadow(s) ==> Blank(g, secs[s := data]) == Blank(g, secs)[s := data]
  {
  }

  /** One `disk_write` of the window, either to the sector it stands for or to a
      shadow sector. */
  method WriteWindow(fs: FatFs, s: nat) returns (ok: bool)
    requires fs.Valid()
    requires fs.geo.Shadow(s) || (fs.wflag && s == fs.winsect)
    modifies fs`marks, fs.disk
    ensures fs.Valid() && fs.Img() == old(fs.Img()) && fs.Grows()
    ensures fs.disk.sectors == if ok && s < fs.disk.size then old(fs.disk.sectors)[s := fs.win[..]] else old(fs.disk.sectors)
    ensures ok ==> s < fs.disk.size
    ensures !ok ==> fs.disk.mayFail || s >= fs.disk.size
  {
    hide Geo.Sound, Journal, Traced, FatOf;
    ghost var before, told := fs.disk.sectors, fs.disk.trace;
    ok := fs.disk.Write(fs.win[..], s);
    if ok {
      BlankUpdate(fs.geo, before, s, fs.win[..]);
      assert fs.Img() == old(fs.Img());
      JournalWrite(fs.geo, told, fs.log, fs.marks, fs.bypass, before, s, fs.win[..]);
      fs.marks := fs.marks + [if fs.geo.Shadow(s) then fs.marks[|fs.marks| - 1] else |fs.log| - 1];
    }
  }

  lemma SameClean(g: Geo, secs: seq<Sector>, s: nat, data: seq<byte>)
    requires s < |secs| && secs[s] == data && !g.Shadow(s)
    ensures Overlay(Blank(g, secs), true, s, data) == Blank(g, secs)
  {
    assert Blank(g, secs)[s := data] == Blank(g, secs);
  }

  lemma JournalWrite(g: Geo, trace: seq<seq<Sector>>, log: seq<Image>, marks: seq<nat>, bypass: set<nat>,
                     before: seq<Sector>, s: nat, data: seq<byte>)
    requires Journal(g, trace, log, marks, bypass) && |log| > 0 && |trace| > 0 && trace[|trace| - 1] == before
    requires s < |before|
    requires g.Shadow(s) || Agree(Blank(g, before)[s := data], log[|log| - 1], bypass)
    ensures Journal(g, trace + [before[s := data]], log, marks + [if g.Shadow(s) then marks[|marks| - 1] else |log| - 1], bypass)
  {
    BlankUpdate(g, before, s, data);
  }

  /** `sync_window` */
  method SyncWindow(fs: FatFs) returns (res: FResult)
    requires fs.Valid()
    modifies fs`wflag, fs`marks, fs.disk
    ensures fs.Valid() && fs.Img() == old(fs.Img()) && fs.Grows()
    ensures res == Ok || (res == DiskErr && fs.disk.mayFail)
    ensures res == Ok ==> !fs.wflag
    ensures res == DiskErr ==> fs.disk.sectors == old(fs.disk.sectors) && fs.wflag == old(fs.wflag)
    ensures res == Ok && !old(fs.wflag) ==> fs.disk.sectors == old(fs.disk.sectors)
    ensures res == Ok && old(fs.wflag) && !fs.disk.mayFail ==>
      fs.disk.sectors == Flushed(fs.geo, old(fs.disk.sectors), fs.winsect, fs.win[..])
    ensures old(fs.Mirrored()) && !fs.disk.mayFail ==> fs.Mirrored()
  {
    hide Times, Quotient, Remainder;
    hide Geo.Sound, Journal, Agree, Blank, Traced, FatOf, Flushed;
    res := Ok;
    Bounds(fs.geo);
    if fs.wflag {
      var wsect := fs.winsect;
      var ok := WriteWindow(fs, wsect);
      if !ok {
        res := DiskErr;
      } else {
        fs.wflag := false;
        SameClean(fs.geo, fs.disk.sectors, wsect, fs.win[..]);
        CopyMirrors(fs);
        FlushMirrors(fs.geo, old(fs.disk.sectors), wsect, fs.win[..]);
      }
    }
  }

  /** The loop of `sync_window` that reflects a FAT sector to every FAT copy; write
      errors here are ignored. */
  method CopyMirrors(fs: FatFs)
    requires fs.Valid() && !fs.wflag && fs.winsect < fs.disk.size && !fs.geo.Shadow(fs.winsect)
    modifies fs`marks, fs.disk
    ensures fs.Valid() && fs.Img() == old(fs.Img()) && fs.Grows()
    ensures !fs.disk.mayFail ==> fs.disk.sectors == Reflected(fs.geo, old(fs.disk.sectors), fs.winsect, fs.win[..])
  {
    Arithmetic();
    hide Times, Quotient, Remainder;
    hide Geo.Sound, Journal, Agree, Blank, Traced, FatOf, Overlay;
    var wsect := fs.winsect;
    Bounds(fs.geo);
    FatTest(fs.geo, wsect);
    if U32(wsect - fs.geo.fatbase) < fs.geo.fsize {
      var nf := fs.geo.nFats;
      while nf >= 2
        invariant nf == fs.geo.nFats || (nf == 1 && fs.geo.nFats == 2)
        invariant nf == fs.geo.nFats ==> wsect == fs.winsect
        invariant fs.Valid() && fs.Img() == old(fs.Img()) && fs.Grows()
        invariant nf == fs.geo.nFats ==> fs.disk.sectors == old(fs.disk.sectors)
        invariant !fs.disk.mayFail && nf < fs.geo.nFats ==>
          fs.disk.sectors == Reflected(fs.geo, old(fs.disk.sectors), fs.winsect, fs.win[..])
      {
        wsect := wsect + fs.geo.fsize;
        var ok := WriteWindow(fs, wsect);
        nf := nf - 1;
      }
    }
  }

  ghost function Reflected(g: Geo, secs: seq<Sector>, s: nat, data: seq<byte>): (r: seq<Sector>)
    ensures |r| == |secs|
  {
    if g.InFat(s) && g.nFats == 2 && s + g.fsize < |secs| then secs[s + g.fsize := data] else secs
  }

  /** The medium after the window is written through: the sector itself and, for a
      FAT sector, its copy. */
  ghost function Flushed(g: Geo, secs: seq<Sector>, s: nat, data: seq<byte>): (r: seq<Sector>)
    ensures |r| == |secs|
  {
    Reflected(g, if s < |secs| then secs[s := data] else secs, s, data)
  }

  /** The second FAT repeats the first, except for the sector at `pending`. */
  ghost predicate Copies(g: Geo, secs: seq<Sector>, dirty: bool, pending: nat)
  {
    g.nFats == 2 ==>
      forall s: nat :: g.InFat(s) && s + g.fsize < |secs| && !(dirty && s == pending) ==> secs[s] == secs[s + g.fsize]
  }

  lemma FlushMirrors(g: Geo, secs: seq<Sector>, s: nat, data: seq<byte>)
    requires g.Sound() && s < |secs|
    ensures Flushed(g, secs, s, data) == Reflected(g, secs[s := data], s, data)
    ensures Copies(g, secs, true, s) && !g.Shadow(s) ==> Copies(g, Flushed(g, secs, s, data), false, s)
  {
    Bounds(g);
  }

  /** `move_window` */
  method MoveWindow(fs: FatFs, sector: nat) returns (res: FResult)
    requires fs.Valid()
    requires sector < fs.disk.size && !fs.geo.Shadow(sector)
    modifies fs`wflag, fs`winsect, fs`marks, fs.win, fs.disk
    ensures fs.Valid() && fs.Img() == old(fs.Img()) && fs.Grows()
    ensures res == Ok || (res == DiskErr && fs.disk.mayFail)
    ensures res == Ok ==> fs.winsect == sector && fs.win[..] == fs.Img()[sector]
    ensures res == DiskErr ==> fs.winsect == old(fs.winsect) || (fs.winsect == NO_SECTOR && !fs.wflag)
    ensures old(fs.Mirrored()) && !fs.disk.mayFail ==> fs.Mirrored()
  {
    hide Geo.Sound, Journal, Agree, Blank, Traced, FatOf;
    res := Ok;
    if sector != fs.winsect {
      res := SyncWindow(fs);
      if res == Ok {
        var at := sector;
        var ok := fs.disk.Read(fs.win, at);
        if !ok {
          at := NO_SECTOR;
          res := DiskErr;
        }
        fs.winsect := at;
      }
    }
    BlankAt(fs.geo, fs.disk.sectors, sector);
  }

  /** The window is marked dirty after its bytes were changed: one metadata update. */
  method Touch(fs: FatFs)
    requires fs.Editable()
    modifies fs`wflag, fs`log
    ensures fs.Valid() && fs.Img() == old(fs.Edited()) && fs.log == old(fs.log) + [fs.Img()] && fs.wflag
    ensures old(fs.Mirrored()) ==> fs.Mirrored()
  {
    hide Geo.Sound, Blank, Agree, FatOf;
    fs.wflag := true;
    fs.log := fs.log + [fs.Img()];
    AgreeSelf(fs.Img(), fs.bypass);
  }

  lemma AgreeSelf(a: Image, except: set<nat>)
    ensures Agree(a, a, except)
  {
  }

  /** Editing the bytes of a loaded window replaces that one sector of the image. */
  lemma EditedIs(g: Geo, secs: seq<Sector>, dirty: bool, at: nat, before: seq<byte>, after: seq<byte>)
    requires at < |secs| && !g.Shadow(at) && (!dirty ==> secs[at] == before)
    ensures Overlay(Blank(g, secs), true, at, after) == Overlay(Blank(g, secs), dirty, at, before)[at := after]
  {
  }

  lemma BlankAt(g: Geo, secs: seq<Sector>, s: nat)
    requires s < |secs| && !g.Shadow(s)
    ensures Blank(g, secs)[s] == secs[s]
  {
  }

  ghost function Span(s: nat, n: nat): (r: set<nat>)
    ensures forall t :: t in r <==> s <= t < s + n
    decreases n
  {
    if n == 0 then {} else {s} + Span(s + 1, n - 1)
  }

  /** `disk_write` of file data, which does not go through the window: no FAT sector and
      not the sector in the window. */
  method DirectWrite(fs: FatFs, data: seq<byte>, s: nat, n: nat) returns (ok: bool)
    requires fs.Valid() && |data| == n * fs.geo.ss && n > 0
    requires fs.geo.database <= s && s + n <= fs.disk.size
    requires !(s <= fs.winsect < s + n)
    modifies fs`marks, fs`bypass, fs.disk
    ensures fs.Valid() && fs.Grows()
    ensures ok ==> fs.Img() == old(fs.Img())[..s] + Chop(data, n, fs.geo.ss) + old(fs.Img())[s + n..]
    ensures ok ==> fs.Fat() == old(fs.Fat())
    ensures !ok ==> fs.disk.mayFail && fs.Img() == old(fs.Img()) && fs.disk.sectors == old(fs.disk.sectors)
    ensures fs.bypass == if ok then old(fs.bypass) + Span(s, n) else old(fs.bypass)
  {
    hide Times, Quotient, Remainder;
    hide Geo.Sound, Journal, Agree, Traced, FatOf, Blank, Overlay, Chop, Span;
    ghost var before, told, img0 := fs.disk.sectors, fs.disk.trace, fs.Img();
    ok := fs.disk.WriteMany(data, s, n);
    if ok {
      ghost var secs := Chop(data, n, fs.geo.ss);
      ImageSplice(fs.geo, before, fs.wflag, fs.winsect, fs.win[..], s, secs);
      JournalBypass(fs.geo, told, fs.log, fs.marks, fs.bypass, before, s, secs);
      AgreeBypass(img0, fs.Img(), fs.log[|fs.log| - 1], fs.bypass, s, secs);
      fs.marks := fs.marks + [fs.marks[|fs.marks| - 1]];
      fs.bypass := fs.bypass + Span(s, n);
      FatFrame(fs.geo, img0, fs.Img()) by { Bounds(fs.geo); }
      StillTraced(fs.geo, fs.log, fs.fats, img0, fs.Img());
    }
  }

  /** File data written past the window changes the image just where it lands. */
  lemma ImageSplice(g: Geo, secs: seq<Sector>, dirty: bool, at: nat, win: seq<byte>, s: nat, data: seq<Sector>)
    requires g.Sound() && g.FsInfoApart() && g.database <= s && s + |data| <= |secs| && !(s <= at < s + |data|)
    ensures Overlay(Blank(g, secs[..s] + data + secs[s + |data|..]), dirty, at, win) ==
      Overlay(Blank(g, secs), dirty, at, win)[..s] + data + Overlay(Blank(g, secs), dirty, at, win)[s + |data|..]
  {
    Bounds(g);
    hide Geo.Sound;
    BlankSplice(g, secs, s, data);
    hide Blank;
  }

  lemma BlankSplice(g: Geo, secs: seq<Sector>, s: nat, data: seq<Sector>)
    requires g.Sound() && g.FsInfoApart() && g.database <= s && s + |data| <= |secs|
    ensures Blank(g, secs[..s] + data + secs[s + |data|..]) == Blank(g, secs)[..s] + data + Blank(g, secs)[s + |data|..]
  {
    Bounds(g);
    hide Geo.Sound;
  }

  lemma JournalBypass(g: Geo, trace: seq<seq<Sector>>, log: seq<Image>, marks: seq<nat>, bypass: set<nat>,
                      before: seq<Sector>, s: nat, data: seq<Sector>)
    requires Journal(g, trace, log, marks, bypass) && |trace| > 0 && trace[|trace| - 1] == before
    requires g.Sound() && g.FsInfoApart() && g.database <= s && s + |data| <= |before|
    ensures Journal(g, trace + [before[..s] + data + before[s + |data|..]], log, marks + [marks[|marks| - 1]],
                    bypass + Span(s, |data|))
  {
    var m := marks[|marks| - 1];
    var now := before[..s] + data + before[s + |data|..];
    BlankSplice(g, before, s, data);
    hide Span, Blank;
    AgreeBypass(Blank(g, before), Blank(g, now), log[m], bypass, s, data);
    JournalWiden(g, trace, log, marks, bypass, Span(s, |data|));
    hide Agree;
    JournalSame(g, trace, log, marks, bypass + Span(s, |data|), now);
  }

  lemma JournalWiden(g: Geo, trace: seq<seq<Sector>>, log: seq<Image>, marks: seq<nat>, bypass: set<nat>, more: set<nat>)
    requires Journal(g, trace, log, marks, bypass)
    ensures Journal(g, trace, log, marks, bypass + more)
  {
    hide Blank;
  }

  lemma JournalSame(g: Geo, trace: seq<seq<Sector>>, log: seq<Image>, marks: seq<nat>, bypass: set<nat>, now: seq<Sector>)
    requires Journal(g, trace, log, marks, bypass) && |trace| > 0
    requires Agree(Blank(g, now), log[marks[|marks| - 1]], bypass)
    ensures Journal(g, trace + [now], log, marks + [marks[|marks| - 1]], bypass)
  {
  }

  lemma AgreeBypass(a: Image, b: Image, log: Image, bypass: set<nat>, s: nat, data: seq<Sector>)
    requires Agree(a, log, bypass) && s + |data| <= |a| && b == a[..s] + data + a[s + |data|..]
    ensures Agree(b, log, bypass + Span(s, |data|))
  {
    hide Span;
  }

  lemma StillTraced(g: Geo, log: seq<Image>, fats: seq<seq<nat>>, a: Image, b: Image)
    requires Traced(g, log, fats, a) && FatOf(g, a) == FatOf(g, b)
    ensures Traced(g, log, fats, b)
  {
    hide FatOf;
  }

  /** The FSINFO record of a FAT32 volume. */
  function FsInfo(ss: nat, free: nat, last: nat): (rec: seq<byte>)
    requires ValidSectorSize(ss)
    ensures |rec| == ss
  {
    StDword(StDword(StDword(StDword(StWord(Zeros(ss), 510, 0xAA55), 0, 0x4161_5252), 484, 0x6141_7272), 488, free), 492, last)
  }

  /** FSINFO reads back the counts it was given, with both signatures in place. */
  lemma FsInfoReadsBack(ss: nat, free: nat, last: nat)
    requires ValidSectorSize(ss)
    ensures var rec := FsInfo(ss, free, last);
      && LdWord(rec, 510) == 0xAA55 && LdDword(rec, 0) == 0x4161_5252 && LdDword(rec, 484) == 0x6141_7272
      && LdDword(rec, 488) == U32(free) && LdDword(rec, 492) == U32(last)
  {
    var a := StWord(Zeros(ss), 510, 0xAA55);
    var b := StDword(a, 0, 0x4161_5252);
    var c := StDword(b, 484, 0x6141_7272);
    var d := StDword(c, 488, free);
    var e := StDword(d, 492, last);
    WordRoundTrip(Zeros(ss), 510, 0xAA55);
    DwordRoundTrip(a, 0, 0x4161_5252);
    DwordRoundTrip(b, 484, 0x6141_7272);
    DwordRoundTrip(c, 488, free);
    DwordRoundTrip(d, 492, last);
    hide StWord, StDword;
  }

  /** `sync_fs`: flush the window, rewrite FSINFO if it is out of date, wait for the drive. */
  method SyncFs(fs: FatFs) returns (res: FResult)
    requires fs.Valid()
    modifies fs`wflag, fs`winsect, fs`marks, fs`fsiDirty, fs.win, fs.disk
    ensures fs.Valid() && fs.Img() == old(fs.Img()) && fs.Grows()
    ensures res == Ok || (res == DiskErr && fs.disk.mayFail)
    ensures res == Ok ==> !fs.wflag
    ensures res == Ok && fs.geo.fsType == Fat32 && !fs.fsiOff ==> !fs.fsiDirty
    ensures res == Ok && fs.geo.fsType == Fat32 && old(fs.fsiDirty) && !fs.fsiOff && !fs.disk.mayFail ==>
      && fs.geo.volbase + 1 < fs.disk.size
      && fs.disk.sectors[fs.geo.volbase + 1] == FsInfo(fs.geo.ss, fs.freeClst, fs.lastClst)
    ensures fs.winsect == old(fs.winsect) || fs.winsect == fs.geo.volbase + 1
  {
    hide Geo.Sound, Journal, Agree, Blank, Traced, FatOf, Flushed, Overlay;
    res := SyncWindow(fs);
    if res == Ok {
      if fs.geo.fsType == Fat32 && fs.fsiDirty && !fs.fsiOff { WriteFsInfo(fs); }
      var synced := true;
      if fs.disk.mayFail { synced := *; }
      if !synced { res := DiskErr; }
    }
  }

  method FillFsInfo(win: array<byte>, free: nat, last: nat)
    requires ValidSectorSize(win.Length)
    modifies win
    ensures win[..] == FsInfo(win.Length, free, last)
  {
    hide StWord, StDword;
    Clear(win);
    StoreWord(win, 510, 0xAA55);
    StoreDword(win, 0, 0x4161_5252);
    StoreDword(win, 484, 0x6141_7272);
    StoreDword(win, 488, free);
    StoreDword(win, 492, last);
  }

  /** The FSINFO part of `sync_fs`; the result of its write is ignored. */
  method WriteFsInfo(fs: FatFs)
    requires fs.Valid() && !fs.wflag && fs.geo.fsType == Fat32
    modifies fs`winsect, fs`marks, fs`fsiDirty, fs.win, fs.disk
    ensures fs.Valid() && fs.Img() == old(fs.Img()) && fs.Grows() && !fs.fsiDirty
    ensures fs.winsect == fs.geo.volbase + 1
    ensures !fs.disk.mayFail ==>
      && fs.geo.volbase + 1 < fs.disk.size
      && fs.disk.sectors[fs.geo.volbase + 1] == FsInfo(fs.geo.ss, fs.freeClst, fs.lastClst)
  {
    Bounds(fs.geo);
    hide Geo.Sound, Journal, Agree, Blank, Traced, FatOf, FsInfo;
    FillFsInfo(fs.win, fs.freeClst, fs.lastClst);
    fs.winsect := fs.geo.volbase + 1;
    var ok := WriteWindow(fs, fs.winsect);
    fs.fsiDirty := false;
  }
}
