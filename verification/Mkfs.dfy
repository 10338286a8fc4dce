/** `f_mkfs`: what it writes to the medium. */
module Mkfs {
  import opened Arith
  import opened BootRecord
  import opened Bytes
  import opened FatEntries
  import opened FileLayout
  import opened Geometry
  import opened Media
  import opened MkfsLayout
  import opened MkfsSizes
  import opened MkfsUnits
  import opened Mount
  import opened Window

  // ----- runs of sectors

  /** A first sector and zeros after it. */
  function FilledRun(head: Sector, n: nat, ss: nat): (r: seq<Sector>)
    ensures |r| == n
  {
    if n == 0 then [] else [head] + ZeroRun(n - 1, ss)
  }

  lemma {:induction false} ChopZeros(n: nat, ss: nat)
    requires |Zeros(n * ss)| == n * ss
    ensures Chop(Zeros(n * ss), n, ss) == ZeroRun(n, ss)
  {
    if n > 0 {
      assert n * ss == ss + (n - 1) * ss;
      ChopZeros(n - 1, ss);
      assert Zeros(n * ss)[..ss] == Zeros(ss);
      assert Zeros(n * ss)[ss..] == Zeros((n - 1) * ss);
    }
  }

  lemma ChopZero(d: seq<byte>, n: nat, ss: nat)
    requires |d| == n * ss && forall k :: 0 <= k < |d| ==> d[k] == 0
    ensures Chop(d, n, ss) == ZeroRun(n, ss)
  {
    assert d == Zeros(|d|);
    ChopZeros(n, ss);
  }

  lemma ChopFilled(d: seq<byte>, n: nat, ss: nat, head: Sector)
    requires n > 0 && |d| == n * ss && ss <= |d| && d[..ss] == head && forall k :: ss <= k < |d| ==> d[k] == 0
    ensures Chop(d, n, ss) == FilledRun(head, n, ss)
  {
    hide Zeros, ZeroRun, Chop;
    ChopStep(d, n, ss);
    var rest := d[ss..];
    RestZero(d, ss, rest);
    ChopZeros(n - 1, ss);
  }

  lemma RestZero(d: seq<byte>, ss: nat, rest: seq<byte>)
    requires ss <= |d| && rest == d[ss..] && forall k :: ss <= k < |d| ==> d[k] == 0
    ensures rest == Zeros(|d| - ss)
  {
  }

  lemma SpliceNext(s: Image, at: nat, a: seq<Sector>, b: seq<Sector>)
    requires at + |a| + |b| <= |s|
    ensures var was := Splice(s, at, a);
      |was| == |s| && was[..at + |a|] + b + was[at + |a| + |b|..] == Splice(s, at, a + b)
  {
  }

  lemma RunGrowsBy(head: Sector, k: nat, n: nat, ss: nat)
    ensures k > 0 ==> FilledRun(head, k, ss) + ZeroRun(n, ss) == FilledRun(head, k + n, ss)
    ensures FilledRun(head, 0, ss) + FilledRun(head, n, ss) == FilledRun(head, n, ss)
  {
  }

  /** The first sector of the buffer is cleared. */
  method ClearFirst(buf: array<byte>, ss: nat)
    requires ss <= buf.Length
    modifies buf
    ensures forall k :: 0 <= k < buf.Length ==> buf[k] == if k < ss then 0 else old(buf[k])
  {
    var i := 0;
    while i < ss
      invariant i <= ss
      invariant forall k :: 0 <= k < buf.Length ==> buf[k] == if k < i then 0 else old(buf[k])
    {
      buf[i] := 0;
      i := i + 1;
    }
  }

  /** The loops that fill the FAT and the root directory: the first sector from the buffer,
      zeros after it, in transfers of at most szBuf sectors. */
  method FillSectors(disk: Disk, buf: array<byte>, szBuf: nat, sect0: nat, nsect0: nat) returns (ok: bool)
    requires disk.Valid() && disk.ss > 0 && szBuf > 0 && buf.Length == szBuf * disk.ss
    requires disk.ss <= buf.Length && forall k :: disk.ss <= k < buf.Length ==> buf[k] == 0
    requires nsect0 > 0 && sect0 + nsect0 <= disk.size
    modifies disk, buf
    ensures disk.Valid() && old(disk.trace) <= disk.trace
    ensures !ok ==> disk.mayFail
    ensures ok ==> disk.sectors == Splice(old(disk.sectors), sect0, FilledRun(old(buf[..disk.ss]), nsect0, disk.ss))
    ensures ok ==> forall k :: 0 <= k < buf.Length ==> buf[k] == 0
  {
    hide Chop, FilledRun, ZeroRun, Splice;
    var ss := disk.ss;
    ghost var head, secs := buf[..ss], disk.sectors;
    var sect: nat, nsect: nat := sect0, nsect0;
    ok := true;
    NothingFilled(secs, sect0, head, ss);
    while nsect > 0
      invariant sect + nsect == sect0 + nsect0 && sect >= sect0 && ok
      invariant disk.Valid() && old(disk.trace) <= disk.trace
      invariant disk.sectors == Splice(secs, sect0, FilledRun(head, sect - sect0, ss))
      invariant sect == sect0 ==> buf[..ss] == head && forall k :: ss <= k < buf.Length ==> buf[k] == 0
      invariant sect > sect0 ==> forall k :: 0 <= k < buf.Length ==> buf[k] == 0
    {
      var n: nat := if nsect > szBuf then szBuf else nsect;
      MulMono(n, szBuf, ss);
      MulMono(1, n, ss);
      ghost var done, data := sect - sect0, buf[..n * ss];
      ok := disk.WriteMany(buf[..n * ss], sect, n);
      if !ok { return; }
      Transfer(secs, sect0, head, done, n, ss, data);
      ClearFirst(buf, ss);
      sect := sect + n;
      nsect := nsect - n;
    }
  }

  lemma NothingFilled(secs: Image, at: nat, head: Sector, ss: nat)
    requires at <= |secs|
    ensures FilledRun(head, 0, ss) == [] && Splice(secs, at, FilledRun(head, 0, ss)) == secs
  {
  }

  /** One transfer of the loop. */
  lemma Transfer(secs: Image, at: nat, head: Sector, done: nat, n: nat, ss: nat, data: seq<byte>)
    requires at + done + n <= |secs| && n > 0 && |data| == n * ss && ss <= |data|
    requires done == 0 ==> data[..ss] == head && forall k :: ss <= k < |data| ==> data[k] == 0
    requires done > 0 ==> forall k :: 0 <= k < |data| ==> data[k] == 0
    ensures var was := Splice(secs, at, FilledRun(head, done, ss));
      |was| == |secs| && was[..at + done] + Chop(data, n, ss) + was[at + done + n..] == Splice(secs, at, FilledRun(head, done + n, ss))
  {
    hide Splice, Chop, Zeros, FilledRun, ZeroRun;
    if done == 0 { ChopFilled(data, n, ss, head); } else { ChopZero(data, n, ss); }
    RunGrowsBy(head, done, n, ss);
    SpliceNext(secs, at, FilledRun(head, done, ss), Chop(data, n, ss));
  }

  // ----- the areas of the volume

  /** Nothing outside sectors [lo, hi) changed. */
  ghost predicate KeptOutside(a: seq<Sector>, b: seq<Sector>, lo: nat, hi: nat)
  {
    |a| == |b| && forall s :: 0 <= s < |a| && !(lo <= s < hi) ==> b[s] == a[s]
  }

  /** An FSINFO record. */
  ghost predicate InfoRecord(sec: seq<byte>, free: nat, last: nat)
  {
    && |sec| >= 512 && LdWord(sec, 510) == 0xAA55 && LdDword(sec, 0) == 0x4161_5252 && LdDword(sec, 484) == 0x6141_7272
    && LdDword(sec, 488) == U32(free) && LdDword(sec, 492) == U32(last)
  }

  /** The boot record, and on FAT32 FSINFO and the backups of both. */
  ghost predicate BootArea(secs: seq<Sector>, p: Plan, bVol: nat, szVol: nat)
  {
    && bVol + p.szRsv <= |secs| && p.szRsv > 0 && BootSector(secs[bVol], p, bVol, szVol)
    && (p.fmt == Fat32 ==>
      && p.szRsv == 32 && secs[bVol + 6] == secs[bVol] && secs[bVol + 7] == secs[bVol + 1]
      && p.nclst > 0 && InfoRecord(secs[bVol + 1], p.nclst - 1, 2))
  }

  /** "Create FSINFO record" */
  method FillInfo(buf: array<byte>, free: nat, last: nat)
    requires buf.Length >= 512
    modifies buf
    ensures InfoRecord(buf[..], free, last)
  {
    Clear(buf);
    PokeDword(buf, 0, 0x4161_5252);
    PokeDword(buf, 484, 0x6141_7272);
    PokeDword(buf, 488, free);
    PokeDword(buf, 492, last);
    PokeWord(buf, 510, 0xAA55);
  }

  method WriteBootArea(disk: Disk, p: Plan, bVol: nat, szVol: nat, vsn: nat) returns (ok: bool)
    requires disk.Valid() && disk.ss >= 512 && bVol + p.szRsv <= disk.size && p.nclst > 0
    requires p.szRsv == if p.fmt == Fat32 then 32 else 1
    modifies disk
    ensures disk.Valid() && old(disk.trace) <= disk.trace
    ensures !ok ==> disk.mayFail
    ensures ok && !disk.mayFail ==> BootArea(disk.sectors, p, bVol, szVol)
    ensures KeptOutside(old(disk.sectors), disk.sectors, bVol, bVol + p.szRsv)
  {
    hide BootSector, InfoRecord;
    var buf := new byte[disk.ss];
    FillBoot(buf, p, bVol, szVol, vsn);
    ok := disk.Write(buf[..], bVol);
    if !ok { return; }
    if p.fmt == Fat32 {
      var done := disk.Write(buf[..], bVol + 6);
      FillInfo(buf, p.nclst - 1, 2);
      done := disk.Write(buf[..], bVol + 7);
      done := disk.Write(buf[..], bVol + 1);
    }
  }

  /** The first sector of a fresh FAT. */
  function FatHead(fmt: FsType, ss: nat): (head: seq<byte>)
    requires ss >= 512
    ensures |head| == ss
  {
    match fmt
    case Fat32 => StDword(StDword(StDword(Zeros(ss), 0, 0xFFFF_FFF8), 4, 0xFFFF_FFFF), 8, 0x0FFF_FFFF)
    case Fat16 => StDword(Zeros(ss), 0, 0xFFFF_FFF8)
    case Fat12 => StDword(Zeros(ss), 0, 0xFF_FFF8)
  }

  /** A fresh FAT and an empty root directory. */
  ghost predicate FreshArea(secs: seq<Sector>, p: Plan, bVol: nat, ss: nat)
  {
    var b := bVol + p.szRsv;
    && ss >= 512 && p.szFat > 0 && b + p.szFat + RootRun(p) <= |secs|
    && secs[b] == FatHead(p.fmt, ss)
    && forall s :: b < s < b + p.szFat + RootRun(p) ==> secs[s] == Zeros(ss)
  }

  /** Sectors of the initial root directory. */
  function RootRun(p: Plan): nat
  {
    if p.fmt == Fat32 then p.pau else p.szDir
  }

  /** "Initialize FAT area" and "Initialize root directory" */
  method WriteFresh(disk: Disk, p: Plan, bVol: nat, szBuf: nat) returns (ok: bool)
    requires disk.Valid() && disk.ss >= 512 && szBuf > 0 && p.szFat > 0 && RootRun(p) > 0
    requires bVol + p.szRsv + p.szFat + RootRun(p) <= disk.size
    modifies disk
    ensures disk.Valid() && old(disk.trace) <= disk.trace
    ensures !ok ==> disk.mayFail
    ensures ok ==> FreshArea(disk.sectors, p, bVol, disk.ss)
    ensures ok ==> KeptOutside(old(disk.sectors), disk.sectors, bVol + p.szRsv, bVol + p.szRsv + p.szFat + RootRun(p))
  {
    hide StDword;
    var ss := disk.ss;
    MulMono(1, szBuf, ss);
    var buf := new byte[szBuf * ss](_ => 0);
    var b := bVol + p.szRsv;
    InitFat(buf, p.fmt, ss);
    ok := FillSectors(disk, buf, szBuf, b, p.szFat);
    if !ok { return; }
    assert buf[..ss] == Zeros(ss);
    ok := FillSectors(disk, buf, szBuf, b + p.szFat, RootRun(p));
  }

  method InitFat(buf: array<byte>, fmt: FsType, ss: nat)
    requires 512 <= ss <= buf.Length && forall k :: 0 <= k < buf.Length ==> buf[k] == 0
    modifies buf
    ensures buf[..ss] == FatHead(fmt, ss) && forall k :: ss <= k < buf.Length ==> buf[k] == 0
  {
    assert buf[..ss] == Zeros(ss);
    if fmt == Fat32 {
      StoreDword(buf, 0, 0xFFFF_FFF8);
      StoreDword(buf, 4, 0xFFFF_FFFF);
      StoreDword(buf, 8, 0x0FFF_FFFF);
    } else {
      StoreDword(buf, 0, if fmt == Fat12 then 0xFF_FFF8 else 0xFFFF_FFF8);
    }
  }

  // ----- the partition table

  /** Start and end of the partition in CHS terms, and its system ID. */
  ghost predicate TableEntry(sec: seq<byte>, bVol: nat, szVol: nat, sys: byte)
  {
    var n := (bVol + szVol) / (63 * 255);
    && |sec| >= 512
    && sec[446] == 0 && sec[447] == 1 && sec[448] == 1 && sec[449] == 0 && sec[450] == sys
    && sec[451] == 254 && sec[452] == Low(n / 4 / 64 * 64 + 63) && sec[453] == Low(n)
  }

  /** A partition table with the volume as its only entry. */
  ghost predicate PartitionTable(sec: seq<byte>, bVol: nat, szVol: nat, sys: byte)
  {
    && |sec| >= 512 && LdWord(sec, 510) == 0xAA55
    && (forall k :: 0 <= k < 446 ==> sec[k] == 0) && (forall k :: 462 <= k < 510 ==> sec[k] == 0)
    && TableEntry(sec, bVol, szVol, sys)
    && LdDword(sec, 454) == U32(bVol) && LdDword(sec, 458) == U32(szVol)
  }

  /** System ID of the partition. */
  function SystemId(fmt: FsType, szVol: nat): (sys: byte)
    ensures sys != 0
  {
    if fmt == Fat32 then 0x0C else if szVol >= 0x1_0000 then 0x06 else if fmt == Fat16 then 0x04 else 0x01
  }

  /** "Update partition information" */
  method WriteTable(disk: Disk, bVol: nat, szVol: nat, sys: byte) returns (ok: bool)
    requires disk.Valid() && disk.ss >= 512 && 0 < disk.size
    modifies disk
    ensures disk.Valid() && old(disk.trace) <= disk.trace
    ensures !ok ==> disk.mayFail
    ensures ok ==> PartitionTable(disk.sectors[0], bVol, szVol, sys)
    ensures KeptOutside(old(disk.sectors), disk.sectors, 0, 1)
  {
    hide PartitionTable;
    var buf := new byte[disk.ss];
    FillTable(buf, bVol, szVol, sys);
    ok := disk.Write(buf[..], 0);
  }

  method FillTable(buf: array<byte>, bVol: nat, szVol: nat, sys: byte)
    requires buf.Length >= 512
    modifies buf
    ensures PartitionTable(buf[..], bVol, szVol, sys)
  {
    hide TableEntry;
    Clear(buf);
    PokeWord(buf, 510, 0xAA55);
    FillEntry(buf, bVol, szVol, sys);
    ghost var e := buf[..];
    PokeDword(buf, 454, bVol);
    PokeDword(buf, 458, szVol);
    EntryKept(e, buf[..], bVol, szVol, sys);
  }

  /** The part of the entry before its two double words. */
  method FillEntry(buf: array<byte>, bVol: nat, szVol: nat, sys: byte)
    requires buf.Length >= 512
    modifies buf
    ensures TableEntry(buf[..], bVol, szVol, sys) && SameOutside(old(buf[..]), buf[..], 446, 454)
  {
    buf[446], buf[447], buf[448], buf[449] := 0, 1, 1, 0;
    buf[450] := sys;
    var n := (bVol + szVol) / (63 * 255);
    buf[451] := 254;
    buf[452] := Low(n / 4 / 64 * 64 + 63);
    buf[453] := Low(n);
  }

  lemma EntryKept(a: seq<byte>, b: seq<byte>, bVol: nat, szVol: nat, sys: byte)
    requires TableEntry(a, bVol, szVol, sys) && |a| == |b| && forall k :: 446 <= k < 454 ==> b[k] == a[k]
    ensures TableEntry(b, bVol, szVol, sys)
  {
  }

  // ----- f_mkfs

  /** A formatted medium. */
  ghost predicate Formatted(secs: seq<Sector>, p: Plan, ss: nat, sfd: bool)
  {
    var bVol := if sfd then 0 else 63;
    && bVol <= |secs| < TWO32 && Uniform(secs, ss) && ss >= 512
    && Laid(p, ss, |secs| - bVol)
    && BootArea(secs, p, bVol, |secs| - bVol) && FreshArea(secs, p, bVol, ss)
    && (!sfd ==> PartitionTable(secs[0], bVol, |secs| - bVol, SystemId(p.fmt, |secs| - bVol)))
  }

  lemma {:induction false} QuotientPow2(a: nat, b: nat)
    requires IsPow2(a) && IsPow2(b) && b <= a
    ensures IsPow2(a / b) && a == a / b * b
    decreases b
  {
    if b > 1 {
      var c, d := a / 2, b / 2;
      QuotientPow2(c, d);
      assert a == 2 * c && b == 2 * d;
      hide IsPow2;
      Doubled(a, b, c, d);
    }
  }

  lemma Doubled(a: nat, b: nat, c: nat, d: nat)
    requires d > 0 && a == 2 * c && b == 2 * d && c == c / d * d
    ensures a / b == c / d && a == a / b * b
  {
    var q := c / d;
    assert a == q * b + 0;
    DivUnique(a, b, q, 0);
  }

  /** A cluster size in bytes that is no power of two, or out of bounds. */
  predicate BadUnit(au: nat, ss: nat)
  {
    au != 0 && (au < ss || au > 0x100_0000 || !IsPow2(au))
  }

  /** The work buffer holds a sector and the volume 128 of them. */
  predicate Roomy(size: nat, sfd: bool, len: nat, ss: nat)
  {
    len >= ss && size >= (if sfd then 0 else 63) + 128
  }

  /** "Check if au is valid": the cluster size in sectors. */
  method CheckUnit(au: nat, ss: nat) returns (ok: bool, unit: nat)
    requires ValidSectorSize(ss) && au < TWO32
    ensures ok <==> !BadUnit(au, ss)
    ensures au > 0x100_0000 || 0 < au < ss ==> !ok
    ensures ok ==> unit == au / ss && (unit == 0 || IsPow2(unit)) && (au == 0 <==> unit == 0) && (unit <= 128 <==> au <= 128 * ss)
  {
    ok, unit := false, 0;
    if au > 0 { Pow2Test(au); }
    if (au != 0 && au < ss) || au > 0x100_0000 || (au != 0 && BitAnd(au, au - 1) != 0) { return; }
    unit := au / ss;
    UnitFacts(au, ss);
    ok := true;
  }

  /** "Pre-determine the FAT type": the first type to try. */
  method PickType(unit: nat, fat: bool, fat32: bool) returns (ok: bool, fmt: FsType)
    ensures ok <==> unit <= 128 && (fat || fat32)
    ensures ok ==> fmt == (if fat then Fat16 else Fat32)
  {
    ok, fmt := false, Fat16;
    if unit > 128 { return; }
    if fat32 && !fat { fmt := Fat32; return true, fmt; }
    if !fat { return; }
    ok := true;
  }

  lemma UnitFacts(au: nat, ss: nat)
    requires ValidSectorSize(ss) && (au == 0 || (au >= ss && IsPow2(au)))
    ensures au / ss <= 128 <==> au <= 128 * ss
    ensures au != 0 ==> IsPow2(au / ss) && au / ss > 0
  {
    if au != 0 {
      assert IsPow2(ss) by { assert IsPow2(64); assert IsPow2(512); assert IsPow2(4096); }
      QuotientPow2(au, ss);
      hide IsPow2;
      if au / ss > 128 { MulMono(129, au / ss, ss); } else { MulMono(au / ss, 128, ss); }
    }
  }

  /** `f_mkfs` for FAT12/16/32 on an unpartitioned drive: which arguments and volumes it
      refuses, leaving the medium alone, and what it leaves on the medium otherwise. */
  method FMkfs(disk: Disk, sfd: bool, fat: bool, fat32: bool, au: nat, len: nat, vsn: nat)
    returns (res: FResult, ghost p: Plan)
    requires disk.Valid() && ValidSectorSize(disk.ss) && au < TWO32 && disk.size < TWO32
    modifies disk
    ensures disk.Valid() && old(disk.trace) <= disk.trace
    ensures res == Ok || res == InvalidParameter || res == MkfsAborted || (res == DiskErr && disk.mayFail)
    ensures res == InvalidParameter || res == MkfsAborted ==> disk.sectors == old(disk.sectors)
    ensures res == InvalidParameter <==>
      || BadUnit(au, disk.ss)
      || (Roomy(disk.size, sfd, len, disk.ss) && (au > 128 * disk.ss || !(fat || fat32)))
    ensures au > 0x100_0000 || 0 < au < disk.ss ==> res == InvalidParameter
    ensures res == MkfsAborted <==>
      && !BadUnit(au, disk.ss)
      && (Roomy(disk.size, sfd, len, disk.ss) ==>
        && au <= 128 * disk.ss && (fat || fat32)
        && !Plannable(fat, fat32, au / disk.ss, disk.size - (if sfd then 0 else 63), disk.ss))
    ensures res == Ok && !disk.mayFail ==> Formatted(disk.sectors, p, disk.ss, sfd)
    ensures res == Ok && au != 0 ==> p.pau == au / disk.ss
    ensures res == Ok && au == 0 ==>
      var szVol: nat := disk.size - (if sfd then 0 else 63);
      var a, b := AutoUnit(Fat16, szVol), AutoUnit(Fat32, szVol);
      p.pau == if p.fmt == Fat32 then (if Fits(Fat32, b, szVol, disk.ss) then b else b / 2)
               else if Fits(Fat12, a, szVol, disk.ss) || Fits(Fat16, a, szVol, disk.ss) then a else 2 * a
    ensures res == Ok && !disk.mayFail && !sfd ==>
      |disk.sectors[0]| >= 512 && disk.sectors[0][450] ==
        (if p.fmt == Fat32 then 0x0C else if disk.size - 63 >= 0x1_0000 then 0x06 else if p.fmt == Fat16 then 0x04 else 0x01)
    ensures res == Ok && !fat32 ==> p.fmt != Fat32
    ensures res == Ok && !fat ==> p.fmt == Fat32
  {
    hide Laid, BootArea, FreshArea, IsPow2, RootRun, BadUnit, Plannable, Settles, Chosen, Fits, AutoUnit;
    var ss := disk.ss;
    p := Plan(Fat12, 0, 0, 0, 0, 0);
    var ok, unit := CheckUnit(au, ss);
    if !ok { return InvalidParameter, p; }
    var szBuf := len / ss;
    if szBuf == 0 { return MkfsAborted, p; }
    var bVol := if sfd then 0 else 63;
    if disk.size < bVol { return MkfsAborted, p; }
    var szVol := disk.size - bVol;
    if szVol < 128 { return MkfsAborted, p; }
    var fmt;
    ok, fmt := PickType(unit, fat, fat32);
    if !ok { return InvalidParameter, p; }
    var q;
    SettlesWhenPlannable(fat, fat32, unit, szVol, ss);
    res, q := PlanVolume(fmt, unit, bVol, szVol, ss, fat32);
    p := q;
    if res != Ok { return; }
    if unit == 0 { ChosenUnit(fat, fat32, szVol, ss); }
    AreasFit(q, ss, szVol);
    ok := WriteBootArea(disk, q, bVol, szVol, vsn);
    if !ok { return DiskErr, p; }
    ghost var booted := disk.sectors;
    ok := WriteFresh(disk, q, bVol, szBuf);
    if !ok { return DiskErr, p; }
    if !disk.mayFail { BootAreaKept(booted, disk.sectors, q, bVol, szVol); }
    if !sfd {
      ghost var fresh_ := disk.sectors;
      ok := WriteTable(disk, bVol, szVol, SystemId(q.fmt, szVol));
      if !ok { return DiskErr, p; }
      if !disk.mayFail { TableAside(fresh_, disk.sectors, q, bVol, szVol, ss); }
    }
    var synced := true;
    if disk.mayFail { synced := *; }
    if !synced { return DiskErr, p; }
  }

  lemma AreasFit(p: Plan, ss: nat, szVol: nat)
    requires Laid(p, ss, szVol)
    ensures p.szRsv == (if p.fmt == Fat32 then 32 else 1) && p.szFat > 0 && RootRun(p) > 0 && p.nclst > 0
    ensures p.szRsv + p.szFat + RootRun(p) <= szVol
  {
    PlanFacts(p, ss, szVol);
    hide IsPow2, Geo.FatBytes;
  }

  lemma BootAreaKept(a: seq<Sector>, b: seq<Sector>, p: Plan, bVol: nat, szVol: nat)
    requires BootArea(a, p, bVol, szVol) && KeptOutside(a, b, bVol + p.szRsv, bVol + p.szRsv + p.szFat + RootRun(p))
    ensures BootArea(b, p, bVol, szVol)
  {
    hide BootSector, InfoRecord;
  }

  lemma TableAside(a: seq<Sector>, b: seq<Sector>, p: Plan, bVol: nat, szVol: nat, ss: nat)
    requires BootArea(a, p, bVol, szVol) && FreshArea(a, p, bVol, ss) && KeptOutside(a, b, 0, 1) && bVol > 0
    ensures BootArea(b, p, bVol, szVol) && FreshArea(b, p, bVol, ss)
  {
    hide BootSector, InfoRecord;
  }
}
