/** A freshly formatted medium mounts as an empty, healthy volume. */
module FreshVolume {
  import opened Allocator
  import opened AllocatorRuns
  import opened Arith
  import opened BootRecord
  import opened Bytes
  import opened Chains
  import opened FatEntries
  import opened Geometry
  import opened Media
  import opened Mkfs
  import opened MkfsLayout
  import opened MkfsSizes
  import opened Mount
  import opened Window

  // ----- the volume is found

  lemma FormattedFound(secs: seq<Sector>, p: Plan, ss: nat, sfd: bool)
    requires Formatted(secs, p, ss, sfd)
    ensures var bVol := if sfd then 0 else 63;
      VolumeStart(secs) == Some(bVol) && FatAt(secs, bVol) && |secs[bVol]| == ss
  {
    var bVol := if sfd then 0 else 63;
    hide Laid, BootSector, FreshArea, InfoRecord, Classify;
    Recognised(secs[bVol], p, bVol, |secs| - bVol);
    if !sfd {
      TableSeen(secs[0], bVol, |secs| - bVol, SystemId(p.fmt, |secs| - bVol));
      assert FirstPart(secs, secs[0], 0) == Some(63);
    }
  }

  lemma TableSeen(mbr: seq<byte>, bVol: nat, szVol: nat, sys: byte)
    requires PartitionTable(mbr, bVol, szVol, sys) && sys != 0 && bVol < TWO32
    ensures Classify(mbr) == OtherBoot && PartStart(mbr, 0) == bVol
  {
  }

  /** A volume laid out by `f_mkfs` is always accepted by `find_volume`, with the layout it
      was given: FAT type, cluster count, FAT base and data base. */
  lemma FormattedMounts(secs: seq<Sector>, p: Plan, ss: nat, sfd: bool)
    requires Formatted(secs, p, ss, sfd)
    ensures var bVol := if sfd then 0 else 63;
      && VolumeStart(secs) == Some(bVol) && |secs[bVol]| == ss
      && BpbOf(LoadBpb(secs[bVol]), ss, bVol) == Some(p.Geometry(ss, bVol))
      && p.Geometry(ss, bVol).Sound() && p.Geometry(ss, bVol).FsInfoApart() && p.Geometry(ss, bVol).End() <= |secs|
  {
    FormattedFound(secs, p, ss, sfd);
    var bVol := if sfd then 0 else 63;
    hide Laid, BootSector, FreshArea, InfoRecord, VolumeStart, PartitionTable;
    LaidMounts(secs[bVol], p, bVol, |secs| - bVol);
  }

  // ----- its FAT is empty

  /** Byte k of a fresh FAT. */
  function FreshByte(p: Plan, ss: nat, k: nat): byte
    requires ss >= 512
  {
    if k < ss then FatHead(p.fmt, ss)[k] else 0
  }

  lemma FreshFatByte(secs: seq<Sector>, p: Plan, bVol: nat, ss: nat, g: Geo, k: nat)
    requires FreshArea(secs, p, bVol, ss) && ValidSectorSize(ss) && g == p.Geometry(ss, bVol)
    requires (p.fmt == Fat32 ==> p.szRsv > 1) && k < p.szFat * ss
    ensures FatByte(g, Blank(g, secs), k) == FreshByte(p, ss, k)
  {
    Arithmetic();
    hide Times, Quotient, Remainder;
    hide FatHead;
    DivBelow(k, p.szFat, ss);
    if k >= ss {
      assert k / ss >= 1;
    } else {
      DivUnique(k, ss, 0, k);
    }
  }

  /** The bytes of the first FAT sector that are not zero. */
  lemma HeadBytes(fmt: FsType, ss: nat, k: nat)
    requires ss >= 512 && k < ss && k >= (if fmt == Fat32 then 12 else if fmt == Fat16 then 4 else 3)
    ensures FatHead(fmt, ss)[k] == 0
  {
  }

  lemma RootEntryBytes(ss: nat)
    requires ss >= 512
    ensures LdDword(FatHead(Fat32, ss), 8) == 0x0FFF_FFFF
  {
    DwordRoundTrip(StDword(StDword(Zeros(ss), 0, 0xFFFF_FFF8), 4, 0xFFFF_FFFF), 8, 0x0FFF_FFFF);
    hide StDword;
  }

  /** The bytes a fresh FAT starts with: the media descriptor, the reserved entry, and on FAT32
      the end mark of the root directory. */
  lemma HeadIs(fmt: FsType, ss: nat)
    requires ss >= 512
    ensures var h := FatHead(fmt, ss);
      match fmt
      case Fat12 => h[..3] == [0xF8, 0xFF, 0xFF] && forall k :: 3 <= k < ss ==> h[k] == 0
      case Fat16 => h[..4] == [0xF8, 0xFF, 0xFF, 0xFF] && forall k :: 4 <= k < ss ==> h[k] == 0
      case Fat32 =>
        && h[..12] == [0xF8, 0xFF, 0xFF, 0xFF, 0xFF, 0xFF, 0xFF, 0xFF, 0xFF, 0xFF, 0xFF, 0x0F]
        && forall k :: 12 <= k < ss ==> h[k] == 0
  {
  }

  /** Every cluster is free, but for the root directory's on FAT32. */
  ghost predicate EmptyFat(p: Plan, fat: FatMap)
  {
    && |fat| == p.nclst + 2
    && forall c :: 2 <= c < |fat| ==> fat[c] == if p.fmt == Fat32 && c == 2 then 0x0FFF_FFFF else 0
  }

  lemma FreshEntry(secs: seq<Sector>, p: Plan, bVol: nat, ss: nat, g: Geo, c: nat)
    requires FreshArea(secs, p, bVol, ss) && ValidSectorSize(ss) && g == p.Geometry(ss, bVol)
    requires (p.fmt == Fat32 ==> p.szRsv > 1) && g.FatBytes() <= p.szFat * ss && 2 <= c < g.nFatent
    ensures Entry(g, Blank(g, secs), c) == if p.fmt == Fat32 && c == 2 then 0x0FFF_FFFF else 0
  {
    hide FatHead, FreshArea, Blank, FatByte;
    var k := match p.fmt { case Fat12 => c + c / 2 case Fat16 => 2 * c case Fat32 => 4 * c };
    FreshFatByte(secs, p, bVol, ss, g, k);
    FreshFatByte(secs, p, bVol, ss, g, k + 1);
    if p.fmt == Fat32 {
      FreshFatByte(secs, p, bVol, ss, g, k + 2);
      FreshFatByte(secs, p, bVol, ss, g, k + 3);
    }
    if p.fmt == Fat32 && c == 2 {
      RootEntryBytes(ss);
    } else {
      if k < ss { HeadBytes(p.fmt, ss, k); }
      if k + 1 < ss { HeadBytes(p.fmt, ss, k + 1); }
      if p.fmt == Fat32 && k + 2 < ss { HeadBytes(p.fmt, ss, k + 2); }
      if p.fmt == Fat32 && k + 3 < ss { HeadBytes(p.fmt, ss, k + 3); }
    }
  }

  lemma FreshIsEmpty(secs: seq<Sector>, p: Plan, ss: nat, sfd: bool)
    requires Formatted(secs, p, ss, sfd)
    ensures var g := p.Geometry(ss, if sfd then 0 else 63);
      EmptyFat(p, FatOf(g, Blank(g, secs)))
  {
    var bVol := if sfd then 0 else 63;
    var g := p.Geometry(ss, bVol);
    AreasFit(p, ss, |secs| - bVol);
    SameBytes(p, ss, bVol);
    hide BootArea, FreshArea, PartitionTable, Entry, IsPow2, Geo.FatBytes;
    forall c | 2 <= c < g.nFatent ensures FatOf(g, Blank(g, secs))[c] == if p.fmt == Fat32 && c == 2 then 0x0FFF_FFFF else 0 {
      FreshEntry(secs, p, bVol, ss, g, c);
    }
  }

  lemma EmptyHealthy(p: Plan, fat: FatMap, heads: set<nat>)
    requires EmptyFat(p, fat) && p.nclst > 0 && |fat| < 0x0FFF_FFFF
    requires heads == if p.fmt == Fat32 then {2} else {}
    ensures WellFormed(fat) && Owned(fat, heads)
    ensures FreeCount(fat) == if p.fmt == Fat32 then p.nclst - 1 else p.nclst
  {
    assert Ranked(fat, fat);
    AllFree(fat, 3);
  }

  lemma {:induction false} AllFree(fat: FatMap, i: nat)
    requires i <= |fat| && forall c :: i <= c < |fat| ==> fat[c] == 0
    ensures FreeFrom(fat, i) == |fat| - i
    decreases |fat| - i
  {
    if i < |fat| { AllFree(fat, i + 1); }
  }

  /** Format, then mount: the volume has the planned layout, no cluster in use but the
      FAT32 root, and an allocator in order with the right free count. */
  method FormatAndMount(disk: Disk, win: array<byte>, sfd: bool, fat: bool, fat32: bool, au: nat, len: nat, vsn: nat)
    returns (res: FResult, fs: FatFs?, ghost p: Plan)
    requires disk.Valid() && ValidSectorSize(disk.ss) && au < TWO32 && disk.size < TWO32 && win.Length == disk.ss
    requires !disk.mayFail
    modifies disk, win
    ensures res == Ok || res == InvalidParameter || res == MkfsAborted
    ensures res == Ok <==> fs != null
    ensures res == Ok <==>
      && !BadUnit(au, disk.ss) && au <= 128 * disk.ss && (fat || fat32) && Roomy(disk.size, sfd, len, disk.ss)
      && Plannable(fat, fat32, au / disk.ss, disk.size - (if sfd then 0 else 63), disk.ss)
    ensures res == Ok ==>
      && Formatted(disk.sectors, p, disk.ss, sfd) && fs.Valid() && fs.disk == disk
      && fs.geo == p.Geometry(disk.ss, if sfd then 0 else 63)
      && EmptyFat(p, fs.Fat()) && Healthy(fs, if p.fmt == Fat32 then {2} else {})
      && fs.freeClst == (if p.fmt == Fat32 then FreeCount(fs.Fat()) else 0xFFFF_FFFF)
  {
    hide Formatted, Geo.Sound, FatFs.Ready, FatFs.Journaled, Traced, EmptyFat, Healthy, FreeCount, BadUnit, Plannable;
    fs := null;
    res, p := FMkfs(disk, sfd, fat, fat32, au, len, vsn);
    if res != Ok { return; }
    fs := MountFresh(disk, win, p, sfd);
  }

  /** Mounting a formatted medium. */
  method MountFresh(disk: Disk, win: array<byte>, ghost p: Plan, sfd: bool) returns (fs: FatFs)
    requires disk.Valid() && ValidSectorSize(disk.ss) && win.Length == disk.ss && !disk.mayFail
    requires Formatted(disk.sectors, p, disk.ss, sfd)
    modifies win, disk`trace
    ensures fs.Valid() && fs.disk == disk && fs.geo == p.Geometry(disk.ss, if sfd then 0 else 63)
    ensures EmptyFat(p, fs.Fat()) && Healthy(fs, if p.fmt == Fat32 then {2} else {})
    ensures fs.freeClst == (if p.fmt == Fat32 then FreeCount(fs.Fat()) else 0xFFFF_FFFF)
  {
    hide Formatted, Geo.Sound, LoadBpb, BpbOf, VolumeStart, FatFs.Ready, FatFs.Journaled, Traced, EmptyFat, UsesFsInfo, FsInfoHints, WellFormed, FreeCount, Owned;
    FormattedMounts(disk.sectors, p, disk.ss, sfd);
    FreshIsEmpty(disk.sectors, p, disk.ss, sfd);
    FreshHints(disk.sectors, p, disk.ss, sfd);
    var res, found := FindVolume(disk, win);
    fs := found;
    EmptyHealthy(p, fs.Fat(), if p.fmt == Fat32 then {2} else {});
  }

  /** What `find_volume` reads from the fresh FSINFO record. */
  lemma FreshHints(secs: seq<Sector>, p: Plan, ss: nat, sfd: bool)
    requires Formatted(secs, p, ss, sfd)
    ensures var bVol := if sfd then 0 else 63; var g := p.Geometry(ss, bVol);
      && (UsesFsInfo(secs, g, bVol) <==> p.fmt == Fat32)
      && (p.fmt == Fat32 ==> FsInfoHints(secs, g, bVol) == (p.nclst - 1, 2))
      && 0 < p.nclst && p.nclst + 2 < 0x0FFF_FFFF
  {
    var bVol := if sfd then 0 else 63;
    PlanFacts(p, ss, |secs| - bVol);
    hide IsPow2, FreshArea, PartitionTable, Geo.FatBytes;
  }
}
