/** The boot record and FSINFO record `f_mkfs` writes, and that `find_volume` reads the same
    layout back from them. */
module BootRecord {
  import opened Arith
  import opened Bytes
  import opened Geometry
  import opened MkfsLayout
  import opened Mount
  import opened Window

  /** Bytes 0 to 18. */
  ghost predicate HeadFields(win: seq<byte>, p: Plan)
  {
    && |win| >= 512
    && win[..11] == [0xEB, 0xFE, 0x90, 0x4D, 0x53, 0x44, 0x4F, 0x53, 0x35, 0x2E, 0x30]
    && LdWord(win, 11) == |win| % 0x1_0000 && win[13] as nat == p.pau % 0x100 && LdWord(win, 14) == p.szRsv % 0x1_0000
    && win[16] == 1 && LdWord(win, 17) == (if p.fmt == Fat32 then 0 else N_ROOTDIR)
  }

  /** The fields common to all FAT types, bytes 0 to 35. */
  ghost predicate CommonFields(win: seq<byte>, p: Plan, bVol: nat, szVol: nat)
  {
    && HeadFields(win, p)
    && LdWord(win, 19) == (if szVol < 0x1_0000 then szVol else 0)
    && win[21] == 0xF8 && LdWord(win, 24) == 63 && LdWord(win, 26) == 255 && LdDword(win, 28) == U32(bVol)
    && LdDword(win, 32) == (if szVol < 0x1_0000 then 0 else U32(szVol))
  }

  ghost predicate Fields32(win: seq<byte>, szFat: nat)
  {
    && |win| >= 512
    && LdWord(win, 22) == 0 && LdDword(win, 36) == U32(szFat) && LdWord(win, 40) == 0 && LdWord(win, 42) == 0
    && LdDword(win, 44) == 2 && LdWord(win, 48) == 1 && LdWord(win, 50) == 6
    && win[64] == 0x80 && win[66] == 0x29
    && win[71..90] == [0x4E, 0x4F, 0x20, 0x4E, 0x41, 0x4D, 0x45, 0x20, 0x20, 0x20, 0x20, 0x46, 0x41, 0x54, 0x33, 0x32, 0x20, 0x20, 0x20]
  }

  ghost predicate Fields16(win: seq<byte>, szFat: nat)
  {
    && |win| >= 512
    && LdWord(win, 22) == szFat % 0x1_0000 && win[36] == 0x80 && win[38] == 0x29
    && win[43..62] == [0x4E, 0x4F, 0x20, 0x4E, 0x41, 0x4D, 0x45, 0x20, 0x20, 0x20, 0x20, 0x46, 0x41, 0x54, 0x20, 0x20, 0x20, 0x20, 0x20]
  }

  /** The fields that depend on the FAT type, and the signature. */
  ghost predicate TypedFields(win: seq<byte>, p: Plan)
  {
    && |win| >= 512 && LdWord(win, 510) == 0xAA55
    && if p.fmt == Fat32 then Fields32(win, p.szFat) else Fields16(win, p.szFat)
  }

  ghost predicate BootSector(win: seq<byte>, p: Plan, bVol: nat, szVol: nat)
  {
    CommonFields(win, p, bVol, szVol) && TypedFields(win, p)
  }

  method FillHead(buf: array<byte>, p: Plan)
    requires buf.Length >= 512
    modifies buf
    ensures HeadFields(buf[..], p) && SameOutside(old(buf[..]), buf[..], 0, 19)
  {
    PokeBytes(buf, 0, [0xEB, 0xFE, 0x90, 0x4D, 0x53, 0x44, 0x4F, 0x53, 0x35, 0x2E, 0x30]);
    PokeWord(buf, 11, buf.Length);
    buf[13] := Low(p.pau);
    PokeWord(buf, 14, p.szRsv);
    buf[16] := Low(N_FATS);
    PokeWord(buf, 17, if p.fmt == Fat32 then 0 else N_ROOTDIR);
  }

  method FillCommon(buf: array<byte>, p: Plan, bVol: nat, szVol: nat)
    requires buf.Length >= 512 && forall k :: 0 <= k < buf.Length ==> buf[k] == 0
    modifies buf
    ensures CommonFields(buf[..], p, bVol, szVol)
    ensures LdWord(buf[..], 22) == 0 && forall k :: 36 <= k < buf.Length ==> buf[k] == 0
  {
    FillHead(buf, p);
    ghost var head := buf[..];
    FillSize(buf, szVol);
    buf[21] := 0xF8;
    PokeWord(buf, 24, 63);
    PokeWord(buf, 26, 255);
    PokeDword(buf, 28, bVol);
    KeepHead(head, buf[..], p);
  }

  lemma KeepHead(a: seq<byte>, b: seq<byte>, p: Plan)
    requires HeadFields(a, p) && |a| == |b| && forall k :: 0 <= k < 19 ==> b[k] == a[k]
    ensures HeadFields(b, p)
  {
    assert a[..11] == b[..11];
  }

  method FillSize(buf: array<byte>, szVol: nat)
    requires buf.Length >= 512 && forall k :: 19 <= k < buf.Length ==> buf[k] == 0
    modifies buf
    ensures LdWord(buf[..], 19) == (if szVol < 0x1_0000 then szVol else 0)
    ensures LdDword(buf[..], 32) == (if szVol < 0x1_0000 then 0 else U32(szVol))
    ensures SameOutside(old(buf[..]), buf[..], 19, 36) && forall k :: 21 <= k < 32 ==> buf[k] == 0
  {
    if szVol < 0x1_0000 {
      PokeWord(buf, 19, szVol);
    } else {
      PokeDword(buf, 32, szVol);
    }
  }

  method FillTyped(buf: array<byte>, p: Plan, vsn: nat)
    requires buf.Length >= 512 && LdWord(buf[..], 22) == 0 && forall k :: 36 <= k < buf.Length ==> buf[k] == 0
    modifies buf
    ensures TypedFields(buf[..], p) && SameOutside(old(buf[..])[..36], buf[..][..36], 22, 24)
  {
    if p.fmt == Fat32 { FillFat32(buf, p.szFat, vsn); } else { FillFat16(buf, p.szFat, vsn); }
  }

  method FillFat32(buf: array<byte>, szFat: nat, vsn: nat)
    requires buf.Length >= 512 && LdWord(buf[..], 22) == 0 && forall k :: 36 <= k < buf.Length ==> buf[k] == 0
    modifies buf
    ensures Fields32(buf[..], szFat) && LdWord(buf[..], 510) == 0xAA55 && SameOutside(old(buf[..]), buf[..], 36, buf.Length)
  {
    PokeDword(buf, 67, vsn);
    PokeDword(buf, 36, szFat);
    PokeDword(buf, 44, 2);
    PokeWord(buf, 48, 1);
    PokeWord(buf, 50, 6);
    buf[64] := 0x80;
    buf[66] := 0x29;
    PokeBytes(buf, 71, [0x4E, 0x4F, 0x20, 0x4E, 0x41, 0x4D, 0x45, 0x20, 0x20, 0x20, 0x20, 0x46, 0x41, 0x54, 0x33, 0x32, 0x20, 0x20, 0x20]);
    PokeWord(buf, 510, 0xAA55);
  }

  method FillFat16(buf: array<byte>, szFat: nat, vsn: nat)
    requires buf.Length >= 512
    modifies buf
    ensures Fields16(buf[..], szFat) && LdWord(buf[..], 510) == 0xAA55
    ensures SameOutside(old(buf[..])[..36], buf[..][..36], 22, 24)
  {
    PokeDword(buf, 39, vsn);
    PokeWord(buf, 22, szFat);
    buf[36] := 0x80;
    buf[38] := 0x29;
    PokeBytes(buf, 43, [0x4E, 0x4F, 0x20, 0x4E, 0x41, 0x4D, 0x45, 0x20, 0x20, 0x20, 0x20, 0x46, 0x41, 0x54, 0x20, 0x20, 0x20, 0x20, 0x20]);
    PokeWord(buf, 510, 0xAA55);
  }

  /** "Create FAT VBR" */
  method FillBoot(buf: array<byte>, p: Plan, bVol: nat, szVol: nat, vsn: nat)
    requires buf.Length >= 512
    modifies buf
    ensures BootSector(buf[..], p, bVol, szVol)
  {
    Clear(buf);
    FillCommon(buf, p, bVol, szVol);
    ghost var was := buf[..];
    FillTyped(buf, p, vsn);
    KeepCommon(was, buf[..], p, bVol, szVol);
  }

  lemma KeepCommon(a: seq<byte>, b: seq<byte>, p: Plan, bVol: nat, szVol: nat)
    requires CommonFields(a, p, bVol, szVol) && |a| == |b| && SameOutside(a[..36], b[..36], 22, 24)
    ensures CommonFields(b, p, bVol, szVol)
  {
    assert forall k :: 0 <= k < 36 ==> a[k] == a[..36][k] && b[k] == b[..36][k];
    KeepHead(a, b, p);
  }

  /** The boot record fields of a plan. */
  predicate Describes(b: Bpb, p: Plan, ss: nat, szVol: nat)
  {
    && b.bytsPerSec == ss && b.secPerClus == p.pau && b.rsvdSecCnt == p.szRsv && b.numFats == 1
    && b.rootEntCnt == (if p.fmt == Fat32 then 0 else N_ROOTDIR) && b.totSec == szVol && b.fatSz == p.szFat
    && (p.fmt == Fat32 ==> b.fsVer == 0 && b.rootClus == 2)
  }

  /** The numbers of a boot record, without its strings. */
  lemma Numbers(win: seq<byte>, p: Plan, bVol: nat, szVol: nat)
    requires BootSector(win, p, bVol, szVol)
    ensures |win| >= 512 && win[13] as nat == p.pau % 0x100 && win[16] == 1
    ensures LdWord(win, 11) == |win| % 0x1_0000 && LdWord(win, 14) == p.szRsv % 0x1_0000
    ensures LdWord(win, 17) == (if p.fmt == Fat32 then 0 else N_ROOTDIR)
    ensures if szVol < 0x1_0000 then LdWord(win, 19) == szVol && LdDword(win, 32) == 0 else LdWord(win, 19) == 0 && LdDword(win, 32) == U32(szVol)
    ensures p.fmt == Fat32 ==> LdWord(win, 22) == 0 && LdDword(win, 36) == U32(p.szFat) && LdWord(win, 42) == 0 && LdDword(win, 44) == 2
    ensures p.fmt != Fat32 ==> LdWord(win, 22) == p.szFat % 0x1_0000
  {
    hide LdWord, LdDword, U32;
  }

  /** Reading the boot record `f_mkfs` wrote. */
  lemma LoadBack(win: seq<byte>, p: Plan, bVol: nat, szVol: nat)
    requires BootSector(win, p, bVol, szVol) && Laid(p, |win|, szVol)
    ensures Describes(LoadBpb(win), p, |win|, szVol)
  {
    Numbers(win, p, bVol, szVol);
    Untruncated(p, |win|, szVol);
    hide Laid, LdWord, LdDword, BootSector, U32;
  }

  /** The numbers of a finished layout fit their fields. */
  lemma Untruncated(p: Plan, ss: nat, szVol: nat)
    requires Laid(p, ss, szVol)
    ensures ss % 0x1_0000 == ss && p.pau % 0x100 == p.pau && p.szRsv % 0x1_0000 == p.szRsv
    ensures U32(szVol) == szVol && U32(p.szFat) == p.szFat && p.szFat > 0 && szVol > 0
    ensures p.fmt != Fat32 ==> p.szFat % 0x1_0000 == p.szFat
  {
    PlanFacts(p, ss, szVol);
    assert ValidSectorSize(ss);
    hide Laid;
  }

  lemma Recognised(win: seq<byte>, p: Plan, bVol: nat, szVol: nat)
    requires BootSector(win, p, bVol, szVol)
    ensures Classify(win) == FatBoot
  {
    assert win[..11][0] == win[0] && win[..11][2] == win[2];
    if p.fmt == Fat32 {
      assert win[82] == win[71..90][11] && win[83] == win[71..90][12] && win[84] == win[71..90][13] && win[85] == win[71..90][14];
    } else {
      assert win[54] == win[43..62][11] && win[55] == win[43..62][12] && win[56] == win[43..62][13] && win[57] == win[43..62][14];
    }
  }

  lemma PlanFacts(p: Plan, ss: nat, szVol: nat)
    requires Laid(p, ss, szVol)
    ensures 0 < p.pau <= 128 && p.szRsv <= 32 && 0 < p.szFat <= szVol < TWO32 && p.nclst >= 16
    ensures p.fmt != Fat32 ==> p.szFat < 0x1_0000
  {
    Pow2Positive(p.pau);
    hide IsPow2;
    assert p.Geometry(ss, 0).FatBytes() > 0;
    DivMono(16 * p.pau, szVol - p.szRsv - p.szFat - p.szDir, p.pau);
    assert 16 * p.pau / p.pau == 16 by { DivUnique(16 * p.pau, p.pau, 16, 0); }
  }

  /** A volume laid out by `f_mkfs` is accepted by `find_volume` with the same FAT type,
      cluster count, FAT base and data base, and its geometry is sound. */
  lemma LaidMounts(win: seq<byte>, p: Plan, bVol: nat, szVol: nat)
    requires BootSector(win, p, bVol, szVol) && Laid(p, |win|, szVol) && bVol + szVol < TWO32
    ensures Classify(win) == FatBoot
    ensures BpbOf(LoadBpb(win), |win|, bVol) == Some(p.Geometry(|win|, bVol))
    ensures p.Geometry(|win|, bVol).Sound() && p.Geometry(|win|, bVol).FsInfoApart()
    ensures p.Geometry(|win|, bVol).End() <= bVol + szVol
  {
    LoadBack(win, p, bVol, szVol);
    Recognised(win, p, bVol, szVol);
    hide BootSector, Classify, LoadBpb;
    PlanAccepted(p, |win|, bVol, szVol, LoadBpb(win));
  }

  lemma RootAligned(p: Plan, ss: nat)
    requires ValidSectorSize(ss) && p.szDir == RootDirSectors(p.fmt, ss)
    ensures var n := if p.fmt == Fat32 then 0 else N_ROOTDIR;
      n % (ss / SZDIRE) == 0 && n / (ss / SZDIRE) == p.szDir
  {
    if ss == 512 {
    } else if ss == 1024 {
    } else if ss == 2048 {
    } else {
    }
  }

  lemma SameBytes(p: Plan, ss: nat, bVol: nat)
    ensures p.Geometry(ss, bVol).FatBytes() == p.Geometry(ss, 0).FatBytes()
    ensures SubType(p.nclst) == p.fmt && p.nclst <= MAX_FAT32 ==> p.nclst <= p.Geometry(ss, bVol).MaxClusters()
  {
  }

  lemma PlanAccepted(p: Plan, ss: nat, bVol: nat, szVol: nat, b: Bpb)
    requires Laid(p, ss, szVol) && bVol + szVol < TWO32 && b.InRange() && Describes(b, p, ss, szVol)
    ensures BpbOf(b, ss, bVol) == Some(p.Geometry(ss, bVol))
    ensures p.Geometry(ss, bVol).Sound() && p.Geometry(ss, bVol).FsInfoApart() && p.Geometry(ss, bVol).End() <= bVol + szVol
  {
    Arithmetic();
    hide Times, Quotient, Remainder;
    var g := p.Geometry(ss, bVol);
    PlanParses(p, ss, bVol, szVol, b);
    hide IsPow2, BpbOf, Geo.FatBytes;
    PlanFacts(p, ss, szVol);
    RootAligned(p, ss);
    ClustersFit(b, ss);
    SumsFit(b, ss);
    hide SystemSectors;
    assert g.RootSectors() == p.szDir;
    FitsIsSound(b, ss, bVol, g);
    DataInside(b, ss, bVol, g);
  }

  lemma PlanParses(p: Plan, ss: nat, bVol: nat, szVol: nat, b: Bpb)
    requires Laid(p, ss, szVol) && bVol + szVol < TWO32 && b.InRange() && Describes(b, p, ss, szVol)
    ensures BpbOf(b, ss, bVol) == Some(p.Geometry(ss, bVol)) && ClusterCount(b, ss) == p.nclst
  {
    hide Times, Quotient, Remainder;
    PlanCounts(p, ss, szVol, b);
    PlanFacts(p, ss, szVol);
    assert p.szRsv + p.szFat + p.szDir <= szVol;
    hide IsPow2, BitAnd, NeededFat, Geo.FatBytes, FatFits, Plausible, ClusterCount, SystemSectors, FatArea;
    SameBytes(p, ss, bVol);
    FatHolds(p.Geometry(ss, bVol));
  }

  /** The sums over the fields come out as planned. */
  lemma PlanCounts(p: Plan, ss: nat, szVol: nat, b: Bpb)
    requires Laid(p, ss, szVol) && b.InRange() && Describes(b, p, ss, szVol)
    ensures Plausible(b, ss) && ClusterCount(b, ss) == p.nclst && FatArea(b) == p.szFat
    ensures SystemSectors(b, ss) == p.szRsv + p.szFat + p.szDir
  {
    hide Times, Quotient, Remainder;
    PlanFacts(p, ss, szVol);
    Pow2Test(p.pau);
    hide IsPow2, BitAnd, Geo.FatBytes;
    RootAligned(p, ss);
    SumsFit(b, ss);
    hide FatArea, SystemSectors;
  }
}
