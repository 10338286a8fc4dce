/** Mounting: `check_fs` and `find_volume`, from the boot record to the layout every other
    layer relies on. */
module Mount {
  import opened Allocator
  import opened Arith
  import opened BootBytes
  import opened Bytes
  import opened FatEntries
  import opened FatTable
  import opened Geometry
  import opened Media
  import opened Window

  datatype Option<T> = None | Some(value: T)

  /** The fields of a boot record that `find_volume` reads. */
  datatype Bpb = Bpb(
    bytsPerSec: nat,
    secPerClus: nat,
    rsvdSecCnt: nat,
    numFats: nat,
    rootEntCnt: nat,
    totSec: nat,  // the 16-bit field, or the 32-bit one if that is 0
    fatSz: nat,   // likewise
    fsVer: nat,
    rootClus: nat
  ) {
    predicate InRange()
    {
      && bytsPerSec < 0x1_0000 && secPerClus < 0x100 && rsvdSecCnt < 0x1_0000 && numFats < 0x100
      && rootEntCnt < 0x1_0000 && totSec < TWO32 && fatSz < TWO32
    }
  }

  function LoadBpb(win: seq<byte>): (b: Bpb)
    requires |win| >= 512
    ensures b.InRange()
  {
    Bpb(LdWord(win, 11), win[13] as nat, LdWord(win, 14), win[16] as nat, LdWord(win, 17),
        if LdWord(win, 19) != 0 then LdWord(win, 19) else LdDword(win, 32),
        if LdWord(win, 22) != 0 then LdWord(win, 22) else LdDword(win, 36),
        LdWord(win, 42), LdDword(win, 44))
  }

  function SubType(nclst: nat): FsType
  {
    if nclst <= MAX_FAT12 then Fat12 else if nclst <= MAX_FAT16 then Fat16 else Fat32
  }

  /** Needed FAT size in bytes, in DWORD arithmetic. */
  function NeededFat(fmt: FsType, nFatent: nat): nat
  {
    match fmt
    case Fat32 => U32(nFatent * 4)
    case Fat16 => U32(nFatent * 2)
    case Fat12 => U32(U32(nFatent * 3) / 2 + nFatent % 2)
  }

  /** Sectors of all FATs, in DWORD arithmetic. */
  function FatArea(b: Bpb): (n: nat)
    ensures n < TWO32
  {
    U32(b.fatSz * b.numFats)
  }

  /** Sectors in front of the data area, in DWORD arithmetic. */
  function SystemSectors(b: Bpb, ss: nat): (n: nat)
    requires ValidSectorSize(ss)
    ensures n < TWO32
  {
    U32(b.rsvdSecCnt + FatArea(b) + b.rootEntCnt / (ss / SZDIRE))
  }

  /** Number of clusters, 0 if there is no room for any. */
  function ClusterCount(b: Bpb, ss: nat): nat
    requires ValidSectorSize(ss)
  {
    if b.totSec < SystemSectors(b, ss) || b.secPerClus == 0 then 0
    else (b.totSec - SystemSectors(b, ss)) / b.secPerClus
  }

  /** The FAT has room for all entries, in DWORD arithmetic. */
  predicate FatFits(fatSz: nat, fmt: FsType, nFatent: nat, ss: nat)
    requires ValidSectorSize(ss)
  {
    fatSz >= U32(NeededFat(fmt, nFatent) + (ss - 1)) / ss
  }

  /** The checks on single fields. */
  predicate Plausible(b: Bpb, ss: nat)
    requires ValidSectorSize(ss)
  {
    && b.bytsPerSec == ss && (b.numFats == 1 || b.numFats == 2)
    && b.secPerClus != 0 && BitAnd(b.secPerClus, b.secPerClus - 1) == 0
    && b.rootEntCnt % (ss / SZDIRE) == 0 && b.rsvdSecCnt != 0
  }

  /** The layout a boot record describes, None if `find_volume` refuses it. Sums and
      products wrap as DWORDs. */
  function BpbOf(b: Bpb, ss: nat, bsect: nat): Option<Geo>
    requires ValidSectorSize(ss)
  {
    var nclst := ClusterCount(b, ss);
    var fmt, nFatent := SubType(nclst), U32(nclst + 2);
    if !Plausible(b, ss) || nclst == 0 then None
    else if fmt == Fat32 && (b.fsVer != 0 || b.rootEntCnt != 0) then None
    else if fmt != Fat32 && b.rootEntCnt == 0 then None
    else if !FatFits(b.fatSz, fmt, nFatent, ss) then None
    else
      var fatbase := U32(bsect + b.rsvdSecCnt);
      var dirbase := if fmt == Fat32 then b.rootClus else U32(fatbase + FatArea(b));
      Some(Geo(fmt, b.numFats, b.secPerClus, ss, b.rootEntCnt, nFatent, b.fatSz, bsect, fatbase, dirbase,
               U32(bsect + SystemSectors(b, ss))))
  }

  /** The part of `find_volume` that analyses the boot record in the window. */
  method ReadBpb(win: array<byte>, bsect: nat) returns (r: Option<Geo>)
    requires ValidSectorSize(win.Length)
    ensures r == BpbOf(LoadBpb(win[..]), win.Length, bsect)
  {
    hide LoadBpb, U32, Plausible, ClusterCount, SystemSectors, NeededFat, FatArea;
    var b := LoadBpb(win[..]);
    var ss := win.Length;
    var fasize, sysect, nclst := CheckFields(b, ss);
    r := None;
    if nclst == 0 { return; }
    var fmt := Fat32;
    if nclst <= MAX_FAT16 { fmt := Fat16; }
    if nclst <= MAX_FAT12 { fmt := Fat12; }
    var nFatent := U32(nclst + 2);
    var fatbase, database := U32(bsect + b.rsvdSecCnt), U32(bsect + sysect);
    var dirbase;
    if fmt == Fat32 {
      if b.fsVer != 0 { return; }
      if b.rootEntCnt != 0 { return; }
      dirbase := b.rootClus;
    } else {
      if b.rootEntCnt == 0 { return; }
      dirbase := U32(fatbase + fasize);
    }
    var szbfat := NeededFat(fmt, nFatent);
    if b.fatSz < U32(szbfat + (ss - 1)) / ss { return; }
    r := Some(Geo(fmt, b.numFats, b.secPerClus, ss, b.rootEntCnt, nFatent, b.fatSz, bsect, fatbase, dirbase, database));
  }

  /** The first checks; no clusters means the record is refused. */
  method CheckFields(b: Bpb, ss: nat) returns (fasize: nat, sysect: nat, nclst: nat)
    requires ValidSectorSize(ss)
    ensures nclst == if Plausible(b, ss) then ClusterCount(b, ss) else 0
    ensures nclst > 0 ==> fasize == FatArea(b) && sysect == SystemSectors(b, ss)
  {
    hide BitAnd, U32;
    fasize, sysect, nclst := 0, 0, 0;
    if b.bytsPerSec != ss { return; }
    if b.numFats != 1 && b.numFats != 2 { return; }
    fasize := U32(b.fatSz * b.numFats);
    if b.secPerClus == 0 || BitAnd(b.secPerClus, b.secPerClus - 1) != 0 { return; }
    if b.rootEntCnt % (ss / SZDIRE) != 0 { return; }
    if b.rsvdSecCnt == 0 { return; }
    sysect := U32(b.rsvdSecCnt + fasize + b.rootEntCnt / (ss / SZDIRE));
    if b.totSec < sysect { return; }
    nclst := (b.totSec - sysect) / b.secPerClus;
  }

  /** No power of two lies strictly between one and its double. */
  lemma {:induction false} Pow2Halves(n: nat, m: nat)
    requires IsPow2(m) && IsPow2(n)
    ensures !(m < n < 2 * m)
    decreases m
  {
    if m > 1 && n > 1 { Pow2Halves(n / 2, m / 2); }
  }

  lemma Pow2Byte(n: nat)
    requires IsPow2(n) && n < 256
    ensures n <= 128
  {
    if n > 128 {
      Pow2Halves(n / 2, 64);
    }
  }

  /** Enough whole sectors for a number of bytes. */
  lemma SectorsHold(ss: nat, bytes: nat, n: nat)
    requires ValidSectorSize(ss)
    ensures n >= (bytes + (ss - 1)) / ss <==> bytes <= n * ss
  {
    var q, r := (bytes + (ss - 1)) / ss, (bytes + (ss - 1)) % ss;
    assert bytes + (ss - 1) == q * ss + r;
    if n >= q { MulMono(q, n, ss); } else { MulMono(n + 1, q, ss); }
    assert (n + 1) * ss == n * ss + ss;
  }

  lemma NeededIsFatBytes(g: Geo)
    requires 2 <= g.nFatent && g.nFatent - 2 <= g.MaxClusters()
    ensures NeededFat(g.fsType, g.nFatent) == g.FatBytes() <= TWO32 - 0x1000
  {
  }

  /** The sum that must stay below 2^32: one past the last data sector of the volume. */
  function Extent(b: Bpb, g: Geo): int
    requires ValidSectorSize(g.ss)
  {
    g.volbase + b.rsvdSecCnt + b.numFats * b.fatSz + g.RootSectors() + (g.nFatent - 2) * g.csize
  }

  lemma QuotientBelow(x: nat, c: nat)
    requires c > 0
    ensures x / c <= x
  {
    MulMono(1, c, x / c);
  }

  lemma WrapAtMostOnce(n: nat)
    requires n < TWO32 && U32(n + 2) >= 2
    ensures U32(n + 2) == n + 2
  {
  }

  lemma CountFits(b: Bpb, ss: nat, n: nat)
    requires ValidSectorSize(ss) && b.InRange() && n == U32(ClusterCount(b, ss) + 2) && n >= 2
    ensures n == ClusterCount(b, ss) + 2
  {
    hide U32, SystemSectors;
    if ClusterCount(b, ss) > 0 { QuotientBelow(b.totSec - SystemSectors(b, ss), b.secPerClus); }
    WrapAtMostOnce(ClusterCount(b, ss));
  }

  lemma SumsFit(b: Bpb, ss: nat)
    requires ValidSectorSize(ss) && b.rsvdSecCnt + b.numFats * b.fatSz + b.rootEntCnt / (ss / SZDIRE) < TWO32
    ensures FatArea(b) == b.numFats * b.fatSz
    ensures SystemSectors(b, ss) == b.rsvdSecCnt + b.numFats * b.fatSz + b.rootEntCnt / (ss / SZDIRE)
  {
    hide U32;
    var f, d := b.numFats * b.fatSz, b.rootEntCnt / (ss / SZDIRE);
    MulMono(0, b.numFats, b.fatSz);
    assert f >= 0 && d >= 0 && b.fatSz * b.numFats == f;
  }

  lemma FatHolds(g: Geo)
    requires ValidSectorSize(g.ss) && 2 <= g.nFatent && g.nFatent - 2 <= g.MaxClusters()
    ensures FatFits(g.fsize, g.fsType, g.nFatent, g.ss) <==> g.FatBytes() <= g.fsize * g.ss
  {
    NeededIsFatBytes(g);
    SectorsHold(g.ss, g.FatBytes(), g.fsize);
    hide Geo.FatBytes, NeededFat;
  }

  /** The relations of a sound layout, without the 32-bit truncation. */
  lemma FitsIsSound(b: Bpb, ss: nat, bsect: nat, g: Geo)
    requires ValidSectorSize(ss) && b.InRange() && bsect < TWO32 && BpbOf(b, ss, bsect) == Some(g)
    requires 2 <= g.nFatent <= MAX_FAT32 + 2 && Extent(b, g) < TWO32
    ensures g.Sound()
  {
    Arithmetic();
    hide Times, Quotient, Remainder;
    hide BitAnd, IsPow2, NeededFat, Geo.FatBytes, ClusterCount, FatArea, SystemSectors, FatFits, U32;
    Pow2Test(g.csize);
    Pow2Byte(g.csize);
    MulMono(0, g.nFatent - 2, g.csize);
    CountFits(b, ss, g.nFatent);
    SumsFit(b, ss);
    FatHolds(g);
  }

  lemma SoundIsFit(b: Bpb, ss: nat, bsect: nat, g: Geo)
    requires ValidSectorSize(ss) && b.InRange() && bsect < TWO32 && BpbOf(b, ss, bsect) == Some(g) && g.Sound()
    ensures 2 <= g.nFatent <= MAX_FAT32 + 2 && Extent(b, g) < TWO32
  {
    Arithmetic();
    hide Times, Quotient, Remainder;
    hide BitAnd, IsPow2, NeededFat, Geo.FatBytes, ClusterCount, FatArea, FatFits;
    assert g.fatbase == g.volbase + b.rsvdSecCnt;
  }

  /** An accepted boot record gives a sound layout exactly when the volume's extent fits in
      32 bits and the cluster count is within the FAT32 limit. */
  lemma AcceptedIsSound(b: Bpb, ss: nat, bsect: nat, g: Geo)
    requires ValidSectorSize(ss) && b.InRange() && bsect < TWO32 && BpbOf(b, ss, bsect) == Some(g)
    ensures g.ss == ss
    ensures g.Sound() <==> 2 <= g.nFatent <= MAX_FAT32 + 2 && Extent(b, g) < TWO32
  {
    assert g.ss == ss;
    hide BpbOf, Geo.Sound, Extent;
    if g.Sound() {
      SoundIsFit(b, ss, bsect, g);
    }
    if 2 <= g.nFatent <= MAX_FAT32 + 2 && Extent(b, g) < TWO32 {
      FitsIsSound(b, ss, bsect, g);
    }
  }

  /** The last FAT byte that get_fat and put_fat touch for cluster c. */
  function LastFatByte(g: Geo, c: nat): nat
  {
    match g.fsType
    case Fat12 => c + c / 2 + 1
    case Fat16 => 2 * c + 1
    case Fat32 => 4 * c + 3
  }

  /** The FAT entries lie inside the first FAT. */
  ghost predicate EntriesInside(g: Geo)
  {
    forall c: nat, k: nat :: c < g.nFatent && k <= LastFatByte(g, c) ==> g.InFat(ByteSector(g, k))
  }

  /** Clusters have sectors of their own, between the FAT and the end of the volume. */
  ghost predicate ClustersApart(g: Geo, end: nat)
  {
    && (forall c: nat, s: nat :: g.ValidCluster(c) && g.InCluster(s, c) ==> g.database <= s < end && !g.InFat(s))
    && (forall c: nat, d: nat, s: nat :: g.ValidCluster(c) && g.ValidCluster(d) && g.InCluster(s, c) && g.InCluster(s, d) ==> c == d)
  }

  /** Accepted geometry is safe, and the values the allocator stores read back. */
  lemma AcceptedIsSafe(b: Bpb, ss: nat, bsect: nat, g: Geo)
    requires ValidSectorSize(ss) && b.InRange() && bsect < TWO32 && BpbOf(b, ss, bsect) == Some(g)
    requires 2 <= g.nFatent <= MAX_FAT32 + 2 && Extent(b, g) < TWO32
    ensures EntriesInside(g) && ClustersApart(g, bsect + b.totSec)
    ensures g.nFatent <= EndMark(g) < DISK_ERROR && forall c :: 0 <= c < g.nFatent ==> Cut(g.fsType, c) == c
  {
    FitsIsSound(b, ss, bsect, g);
    DataInside(b, ss, bsect, g);
    hide BpbOf, Extent, EndMark, Cut;
    MarksReadBack(g);
    SoundEntries(g);
    SoundClusters(g, bsect + b.totSec);
  }

  lemma SoundEntries(g: Geo)
    requires g.Sound()
    ensures EntriesInside(g)
  {
    hide Geo.Sound;
    forall c: nat, k: nat | c < g.nFatent && k <= LastFatByte(g, c) ensures g.InFat(ByteSector(g, k)) {
      FatByteInside(g, c, k);
    }
  }

  lemma SoundClusters(g: Geo, end: nat)
    requires g.Sound() && g.End() <= end
    ensures ClustersApart(g, end)
  {
    Bounds(g);
    hide Geo.Sound, Geo.InCluster;
    forall c: nat, s: nat | g.ValidCluster(c) && g.InCluster(s, c) ensures g.database <= s < end && !g.InFat(s) {
      InDataRange(g, c, s);
    }
    forall c: nat, d: nat, s: nat | g.ValidCluster(c) && g.ValidCluster(d) && g.InCluster(s, c) && g.InCluster(s, d)
      ensures c == d
    {
      if c != d { ClustersDisjoint(g, c, d, s); }
    }
  }

  lemma InDataRange(g: Geo, c: nat, s: nat)
    requires g.Sound() && g.ValidCluster(c) && g.InCluster(s, c)
    ensures g.database <= s < g.End()
  {
    Arithmetic();
    hide Times, Quotient, Remainder;
    ClusterOffset(c - 2, g.nFatent - 2, g.csize);
  }

  lemma FatByteInside(g: Geo, c: nat, k: nat)
    requires g.Sound() && c < g.nFatent && k <= LastFatByte(g, c)
    ensures g.InFat(ByteSector(g, k))
  {
    Arithmetic();
    hide Times, Quotient, Remainder;
    assert k < g.FatBytes();
    DivBelow(k, g.fsize, g.ss);
  }

  lemma DataInside(b: Bpb, ss: nat, bsect: nat, g: Geo)
    requires ValidSectorSize(ss) && b.InRange() && bsect < TWO32 && BpbOf(b, ss, bsect) == Some(g)
    requires 2 <= g.nFatent <= MAX_FAT32 + 2 && Extent(b, g) < TWO32
    ensures g.End() <= bsect + b.totSec
  {
    Arithmetic();
    hide Times, Quotient, Remainder;
    hide BitAnd, NeededFat, FatArea, FatFits, U32, ClusterCount, SystemSectors;
    CountFits(b, ss, g.nFatent);
    MulMono(0, g.nFatent - 2, g.csize);
    SumsFit(b, ss);
    ClustersFit(b, ss);
    assert (g.nFatent - 2) * g.csize == ClusterCount(b, ss) * b.secPerClus;
  }

  lemma ClustersFit(b: Bpb, ss: nat)
    requires ValidSectorSize(ss)
    ensures ClusterCount(b, ss) > 0 ==> SystemSectors(b, ss) + ClusterCount(b, ss) * b.secPerClus <= b.totSec
  {
    hide SystemSectors;
  }

  /** Without the condition the layout can be fatal: here the FAT area wraps to nothing and
      the accepted volume's clusters lie on top of its FAT. */
  lemma WrappedFatArea()
    ensures var b := Bpb(512, 1, 32, 2, 0, 200000, 0x8000_0000, 0, 2);
      b.InRange() && BpbOf(b, 512, 0).Some? && (var g := BpbOf(b, 512, 0).value;
        !g.Sound() && g.ValidCluster(2) && g.InFat(Clust2Sect(g, 2)))
  {
    var b := Bpb(512, 1, 32, 2, 0, 200000, 0x8000_0000, 0, 2);
    assert BitAnd(1, 0) == 0;
    assert FatArea(b) == 0 && SystemSectors(b, 512) == 32 && ClusterCount(b, 512) == 199968;
    assert SubType(199968) == Fat32;
  }

  // ----- the record's bytes

  lemma PowersOfTwo(n: nat)
    requires n < 256
    ensures n != 0 && BitAnd(n, n - 1) == 0 <==> n in [1, 2, 4, 8, 16, 32, 64, 128]
  {
    SmallPowers(n);
    if n != 0 { Pow2Test(n); }
  }

  lemma {:induction false} SmallPowers(n: nat)
    requires n < 256
    ensures IsPow2(n) <==> n in [1, 2, 4, 8, 16, 32, 64, 128]
  {
    if n > 1 && n % 2 == 0 { SmallPowers(n / 2); }
  }

  lemma RootArea(r: nat, ss: nat)
    requires ValidSectorSize(ss)
    ensures r / (ss / SZDIRE) == r * 32 / ss && (r % (ss / SZDIRE) == 0 <==> r * 32 % ss == 0)
  {
    var k := ss / SZDIRE;
    var q, m := r / k, r % k;
    assert k * 32 == ss && r == q * k + m;
    DivUnique(r * 32, ss, q, m * 32);
  }

  lemma WrapSum(r: nat, x: nat, d: nat)
    ensures U32(r + U32(x) + d) == (r + x + d) % 0x1_0000_0000
  {
    var q, m := x / TWO32, x % TWO32;
    assert r + x + d == q * TWO32 + (r + m + d);
  }

  /** The sums over the fields are those over the record's bytes. */
  lemma RecordSums(s: Sector, ss: nat)
    requires |s| >= 512 && ValidSectorSize(ss)
    ensures var b := LoadBpb(s);
      && b.totSec == TotalSectors(s) && b.fatSz == FatSectors(s) && SystemSectors(b, ss) == SystemArea(s, ss)
      && ClusterCount(b, ss) == Clusters(s, ss)
  {
    hide LdWord, LdDword, U32, ClusterCount, Clusters, SystemSectors, SystemArea;
    WordIs(s, 19, 0, 0);
    WordIs(s, 22, 0, 0);
    var b := LoadBpb(s);
    RootArea(b.rootEntCnt, ss);
    WrapSum(b.rsvdSecCnt, b.fatSz * b.numFats, b.rootEntCnt / (ss / SZDIRE));
    SumsAgree(s, ss, b);
  }

  lemma SumsAgree(s: Sector, ss: nat, b: Bpb)
    requires |s| >= 512 && ValidSectorSize(ss) && b == LoadBpb(s) && b.totSec == TotalSectors(s) && b.fatSz == FatSectors(s)
    requires b.rootEntCnt / (ss / SZDIRE) == LdWord(s, 17) * 32 / ss
    requires U32(b.rsvdSecCnt + U32(b.fatSz * b.numFats) + b.rootEntCnt / (ss / SZDIRE)) ==
      (b.rsvdSecCnt + b.fatSz * b.numFats + b.rootEntCnt / (ss / SZDIRE)) % 0x1_0000_0000
    ensures SystemSectors(b, ss) == SystemArea(s, ss) && ClusterCount(b, ss) == Clusters(s, ss)
  {
    hide LdWord, LdDword, U32, TotalSectors, FatSectors;
  }

  lemma RecordFields(s: Sector, ss: nat)
    requires |s| >= 512 && ValidSectorSize(ss)
    ensures Plausible(LoadBpb(s), ss) <==> GoodFields(s, ss)
  {
    hide LdWord, LdDword, BitAnd;
    RootArea(LdWord(s, 17), ss);
    PowersOfTwo(s[13]);
  }

  lemma RoomForEntries(fatSz: nat, n: nat, ss: nat)
    requires ValidSectorSize(ss) && 0 < n <= MAX_FAT16
    ensures FatFits(fatSz, SubType(n), U32(n + 2), ss) <==>
      if n <= MAX_FAT12 then 3 * (n + 2) <= 2 * (fatSz * ss) else 2 * (n + 2) <= fatSz * ss
  {
    hide U32;
    var bytes := NeededFat(SubType(n), n + 2);
    assert bytes == if n <= MAX_FAT12 then 3 * (n + 2) / 2 + (n + 2) % 2 else 2 * (n + 2);
    SectorsHold(ss, bytes, fatSz);
    hide NeededFat;
    assert FatFits(fatSz, SubType(n), n + 2, ss) <==> bytes <= fatSz * ss;
    if n <= MAX_FAT12 { HalfBytes(n + 2, bytes, fatSz * ss); }
  }

  lemma HalfBytes(n: nat, bytes: nat, m: nat)
    requires bytes == 3 * n / 2 + n % 2
    ensures bytes <= m <==> 3 * n <= 2 * m
  {
    var q, r := n / 2, n % 2;
    assert n == 2 * q + r && (r == 0 || r == 1);
    assert 3 * n == 2 * (3 * q + r) + r;
    DivUnique(3 * n, 2, 3 * q + r, r);
  }

  /** FAT32 sizes wrap. */
  lemma RoomForLong(fatSz: nat, n: nat, ss: nat)
    requires ValidSectorSize(ss) && n > MAX_FAT16
    ensures FatFits(fatSz, SubType(n), U32(n + 2), ss) <==>
      ((n + 2) * 4 % 0x1_0000_0000 + ss - 1) % 0x1_0000_0000 / ss <= fatSz
  {
    FourFold(n + 2);
    hide U32;
    Wrapped(U32((n + 2) * 4) + (ss - 1));
    Wrapped((n + 2) * 4);
  }

  lemma FourFold(n: nat)
    ensures U32(U32(n) * 4) == U32(n * 4)
  {
    var q, m := n / 0x1_0000_0000, n % 0x1_0000_0000;
    assert n * 4 == m * 4 + 4 * q * 0x1_0000_0000;
  }

  lemma RecordRoom(fatSz: nat, n: nat, ss: nat)
    requires ValidSectorSize(ss) && n > 0
    ensures FatFits(fatSz, SubType(n), U32(n + 2), ss) <==>
      if n <= 0xFF5 then 3 * (n + 2) <= 2 * (fatSz * ss)
      else if n <= 0xFFF5 then 2 * (n + 2) <= fatSz * ss
      else ((n + 2) * 4 % 0x1_0000_0000 + ss - 1) % 0x1_0000_0000 / ss <= fatSz
  {
    if n <= MAX_FAT16 { RoomForEntries(fatSz, n, ss); } else { RoomForLong(fatSz, n, ss); }
  }

  lemma WrapTwice(r: nat, x: nat)
    ensures U32(U32(r) + U32(x)) == (r + x) % 0x1_0000_0000
  {
    WrapSum(0, r, U32(x));
    WrapSum(r, x, 0);
  }

  lemma RecordLayout(s: Sector, ss: nat, b: nat)
    requires |s| >= 512 && ValidSectorSize(ss) && BpbOf(LoadBpb(s), ss, b).Some?
    ensures LaysOut(s, ss, b, BpbOf(LoadBpb(s), ss, b).value)
  {
    hide LdWord, LdDword, Plausible, ClusterCount, Clusters, SystemSectors, SystemArea, TotalSectors, FatSectors, FatFits, U32;
    RecordSums(s, ss);
    var f := LoadBpb(s);
    WrapTwice(b + f.rsvdSecCnt, f.fatSz * f.numFats);
    Wrapped(b + f.rsvdSecCnt);
    Wrapped(b + SystemArea(s, ss));
    Wrapped(Clusters(s, ss) + 2);
  }

  lemma Wrapped(n: nat)
    ensures U32(n) == n % 0x1_0000_0000
  {
  }

  /** `find_volume` accepts exactly the records that are good by their bytes, and takes the
      layout from them. */
  lemma RecordAccepted(s: Sector, ss: nat, b: nat)
    requires |s| >= 512 && ValidSectorSize(ss)
    ensures BpbOf(LoadBpb(s), ss, b).Some? <==> GoodRecord(s, ss)
    ensures BpbOf(LoadBpb(s), ss, b).Some? ==> LaysOut(s, ss, b, BpbOf(LoadBpb(s), ss, b).value)
  {
    hide LdWord, LdDword, LaysOut, Plausible, GoodFields, ClusterCount, Clusters, SystemSectors, SystemArea, TotalSectors, FatSectors, FatFits, FatArea, U32;
    RecordSums(s, ss);
    RecordFields(s, ss);
    var n := Clusters(s, ss);
    if n > 0 { RecordRoom(FatSectors(s), n, ss); }
    if BpbOf(LoadBpb(s), ss, b).Some? { RecordLayout(s, ss, b); }
  }

  // ----- finding the volume

  datatype BootKind = FatBoot | OtherBoot | NotBoot | Unreadable

  /** What a sector is taken for. */
  function Classify(sec: seq<byte>): BootKind
    requires |sec| >= 512
  {
    if LdWord(sec, 510) != 0xAA55 then NotBoot
    else if (sec[0] == 0xE9 || (sec[0] == 0xEB && sec[2] == 0x90))
      && (LdDword(sec, 54) % 0x100_0000 == 0x544146 || LdDword(sec, 82) == 0x3354_4146) then FatBoot
    else OtherBoot
  }

  /** A sector is taken for a FAT volume exactly by its signature, the jump instruction and the
      type string of either kind. */
  lemma Recognition(sec: Sector)
    requires |sec| >= 512
    ensures Classify(sec) == NotBoot <==> !(sec[510] == 0x55 && sec[511] == 0xAA)
    ensures Classify(sec) == FatBoot <==>
      && sec[510] == 0x55 && sec[511] == 0xAA
      && (sec[0] == 0xE9 || (sec[0] == 0xEB && sec[2] == 0x90))
      && ((sec[54] == 0x46 && sec[55] == 0x41 && sec[56] == 0x54)
          || (sec[82] == 0x46 && sec[83] == 0x41 && sec[84] == 0x54 && sec[85] == 0x33))
    ensures (Classify(sec) == FatBoot <==> FatRecord(sec)) && (Classify(sec) == NotBoot <==> !Signed(sec))
    ensures Classify(sec) != Unreadable
  {
    hide LdWord, LdDword;
    WordIs(sec, 510, 0x55, 0xAA);
    ThreeAre(sec, 54, 0x46, 0x41, 0x54);
    DwordIs(sec, 82, 0x46, 0x41, 0x54, 0x33);
    assert sec[54..57] == [sec[54], sec[55], sec[56]] && sec[82..86] == [sec[82], sec[83], sec[84], sec[85]];
  }

  /** Start sector of the i-th partition table entry, 0 if it is unused. */
  function PartStart(mbr: seq<byte>, i: nat): nat
    requires |mbr| >= 512 && i < 4
  {
    if mbr[446 + i * 16 + 4] != 0 then LdDword(mbr, 446 + i * 16 + 8) else 0
  }

  /** Sector b of the medium holds a FAT boot record. */
  predicate FatAt(secs: seq<Sector>, b: nat)
  {
    b < |secs| && |secs[b]| >= 512 && Classify(secs[b]) == FatBoot
  }

  /** The first partition, from the i-th on, that holds a FAT volume. */
  function FirstPart(secs: seq<Sector>, mbr: seq<byte>, i: nat): (b: Option<nat>)
    requires |mbr| >= 512 && i <= 4
    ensures b.Some? ==> FatAt(secs, b.value) && b.value < TWO32
    decreases 4 - i
  {
    if i == 4 then None
    else if PartStart(mbr, i) != 0 && FatAt(secs, PartStart(mbr, i)) then Some(PartStart(mbr, i))
    else FirstPart(secs, mbr, i + 1)
  }

  /** Where the volume starts: at sector 0, or else in the first FAT partition. */
  function VolumeStart(secs: seq<Sector>): (b: Option<nat>)
    ensures b.Some? ==> FatAt(secs, b.value) && b.value < TWO32
  {
    if |secs| == 0 || |secs[0]| < 512 then None
    else if Classify(secs[0]) == FatBoot then Some(0)
    else if Classify(secs[0]) == NotBoot then None
    else FirstPart(secs, secs[0], 0)
  }

  lemma PartitionIs(secs: seq<Sector>, i: nat, b: nat)
    requires |secs| > 0 && |secs[0]| >= 512 && i < 4
    ensures FatPartition(secs, i, b) <==> b != 0 && b == PartStart(secs[0], i) && FatAt(secs, b)
  {
    hide LdDword, Classify;
    if b < |secs| && |secs[b]| >= 512 { Recognition(secs[b]); }
  }

  lemma {:induction false} FirstPartIs(secs: seq<Sector>, i: nat, b: nat)
    requires |secs| > 0 && |secs[0]| >= 512 && i <= 4
    ensures FirstPart(secs, secs[0], i) == Some(b) <==>
      exists k: nat :: FirstFat(secs, i, k, b)
    decreases 4 - i
  {
    hide PartStart, FatPartition, FatAt;
    if i < 4 {
      var next := i + 1;
      FirstPartIs(secs, next, b);
      forall c: nat ensures FatPartition(secs, i, c) <==> c != 0 && c == PartStart(secs[0], i) && FatAt(secs, c) {
        PartitionIs(secs, i, c);
      }
      if FatPartition(secs, i, PartStart(secs[0], i)) {
        assert FirstFat(secs, i, i, PartStart(secs[0], i));
      } else {
        forall k: nat ensures FirstFat(secs, i, k, b) <==> FirstFat(secs, next, k, b) {
          if k == i { assert !FatPartition(secs, i, b); }
        }
      }
    } else {
      forall k: nat ensures !FirstFat(secs, i, k, b) { PastTable(secs, k, b); }
    }
  }

  lemma PastTable(secs: seq<Sector>, k: nat, b: nat)
    ensures k >= 4 ==> !FatPartition(secs, k, b)
  {
  }

  /** The volume is taken to start at sector 0 if that holds a FAT record, and else at the
      first partition of the table there that does. */
  lemma StartIs(secs: seq<Sector>, b: nat)
    ensures VolumeStart(secs) == Some(b) <==> VolumeAt(secs, b)
  {
    hide Classify, FirstPart;
    if |secs| > 0 && |secs[0]| >= 512 {
      Recognition(secs[0]);
      FirstPartIs(secs, 0, b);
    }
  }

  /** `check_fs` */
  method CheckFs(disk: Disk, win: array<byte>, sect: nat) returns (kind: BootKind)
    requires disk.Valid() && ValidSectorSize(disk.ss) && win.Length == disk.ss
    modifies win
    ensures kind == Unreadable ==> disk.mayFail || sect >= disk.size
    ensures kind != Unreadable ==> sect < disk.size && win[..] == disk.sectors[sect] && kind == Classify(win[..])
    ensures kind == NotBoot ==> win[510] != 0x55 || win[511] != 0xAA
    ensures kind == FatBoot || kind == OtherBoot ==> win[510] == 0x55 && win[511] == 0xAA
    ensures kind != Unreadable && kind != NotBoot ==>
      (kind == FatBoot <==>
        && (win[0] == 0xE9 || (win[0] == 0xEB && win[2] == 0x90))
        && ((win[54] == 0x46 && win[55] == 0x41 && win[56] == 0x54)
            || (win[82] == 0x46 && win[83] == 0x41 && win[84] == 0x54 && win[85] == 0x33)))
  {
    hide LdWord, LdDword;
    var ok := disk.Read(win, sect);
    if !ok { return Unreadable; }
    Recognition(win[..]);
    if LdWord(win[..], 510) != 0xAA55 { return NotBoot; }
    if win[0] == 0xE9 || (win[0] == 0xEB && win[2] == 0x90) {
      if LdDword(win[..], 54) % 0x100_0000 == 0x544146 { return FatBoot; }
      if LdDword(win[..], 82) == 0x3354_4146 { return FatBoot; }
    }
    kind := OtherBoot;
  }

  /** `find_volume`, the search: sector 0, then the partitions in table order. */
  method FindBoot(disk: Disk, win: array<byte>) returns (kind: BootKind, bsect: nat)
    requires disk.Valid() && ValidSectorSize(disk.ss) && win.Length == disk.ss
    modifies win
    ensures kind == FatBoot ==> FatAt(disk.sectors, bsect) && win[..] == disk.sectors[bsect] && bsect < TWO32
    ensures !disk.mayFail ==> (if kind == FatBoot then VolumeStart(disk.sectors) == Some(bsect) else VolumeStart(disk.sectors) == None)
    ensures !disk.mayFail ==> forall b: nat :: VolumeAt(disk.sectors, b) <==> kind == FatBoot && b == bsect
    ensures kind == Unreadable ==> bsect >= disk.size || disk.mayFail
  {
    hide LdWord, LdDword, Classify, VolumeAt;
    forall b: nat ensures VolumeStart(disk.sectors) == Some(b) <==> VolumeAt(disk.sectors, b) { StartIs(disk.sectors, b); }
    bsect := 0;
    kind := CheckFs(disk, win, bsect);
    if kind == OtherBoot {
      ghost var mbr := win[..];
      var br := [PartStart(win[..], 0), PartStart(win[..], 1), PartStart(win[..], 2), PartStart(win[..], 3)];
      var i: nat := 0;
      while true
        invariant i < 4 && (!disk.mayFail ==> FirstPart(disk.sectors, mbr, i) == FirstPart(disk.sectors, mbr, 0))
        decreases 4 - i
      {
        bsect := br[i];
        kind := NotBoot;
        if bsect != 0 { kind := CheckFs(disk, win, bsect); }
        i := i + 1;
        if kind == FatBoot || i == 4 { break; }
      }
    }
  }

  /** The allocation hints `find_volume` takes from FSINFO: free count and last cluster. */
  function FsInfoHints(secs: seq<Sector>, g: Geo, bsect: nat): (nat, nat)
  {
    if bsect + 1 < |secs| && |secs[bsect + 1]| >= 512
      && LdWord(secs[bsect + 1], 510) == 0xAA55 && LdDword(secs[bsect + 1], 0) == 0x4161_5252
      && LdDword(secs[bsect + 1], 484) == 0x6141_7272
    then (LdDword(secs[bsect + 1], 488), LdDword(secs[bsect + 1], 492))
    else (0xFFFF_FFFF, 0xFFFF_FFFF)
  }

  /** The volume has an FSINFO record the engine will use. */
  predicate UsesFsInfo(secs: seq<Sector>, g: Geo, bsect: nat)
  {
    g.fsType == Fat32 && bsect + 1 < |secs| && |secs[bsect]| >= 512 && LdWord(secs[bsect], 48) == 1
  }

  /** When FSINFO is used, and the hints in it. */
  lemma HintBytes(secs: seq<Sector>, g: Geo, b: nat)
    ensures UsesFsInfo(secs, g, b) <==>
      g.fsType == Fat32 && b + 1 < |secs| && |secs[b]| >= 512 && secs[b][48] == 1 && secs[b][49] == 0
    ensures FsInfoHints(secs, g, b) ==
      if b + 1 < |secs| && InfoSigned(secs[b + 1]) then (LdDword(secs[b + 1], 488), LdDword(secs[b + 1], 492))
      else (0xFFFF_FFFF, 0xFFFF_FFFF)
  {
    hide LdWord, LdDword;
    if b + 1 < |secs| && |secs[b]| >= 512 { WordIs(secs[b], 48, 1, 0); }
    if b + 1 < |secs| && |secs[b + 1]| >= 512 {
      var s := secs[b + 1];
      WordIs(s, 510, 0x55, 0xAA);
      DwordIs(s, 0, 0x52, 0x52, 0x61, 0x41);
      DwordIs(s, 484, 0x72, 0x72, 0x41, 0x61);
      assert s[0..4] == [s[0], s[1], s[2], s[3]] && s[484..488] == [s[484], s[485], s[486], s[487]];
    }
  }

  /** The medium describes a volume the layers above can work on. */
  ghost predicate Mountable(secs: seq<Sector>, ss: nat, b: nat)
  {
    ValidSectorSize(ss) && b < |secs| && |secs[b]| == ss &&
    match BpbOf(LoadBpb(secs[b]), ss, b)
    case None => true
    case Some(g) => g.Sound() && g.FsInfoApart() && g.End() <= |secs|
  }

  lemma BpbPlace(b: Bpb, ss: nat, bsect: nat, g: Geo)
    requires ValidSectorSize(ss) && BpbOf(b, ss, bsect) == Some(g)
    ensures g.ss == ss && g.volbase == bsect
  {
  }

  /** `find_volume` on a volume object to be initialised. */
  method FindVolume(disk: Disk, win: array<byte>) returns (res: FResult, fs: FatFs?)
    requires disk.Valid() && ValidSectorSize(disk.ss) && win.Length == disk.ss && !disk.mayFail
    requires VolumeStart(disk.sectors).Some? ==> Mountable(disk.sectors, disk.ss, VolumeStart(disk.sectors).value)
    modifies win, disk`trace
    ensures res == Ok || res == DiskErr || res == NoFilesystem
    ensures res == Ok <==> fs != null
    ensures VolumeStart(disk.sectors).Some? ==> res != DiskErr
    ensures res == Ok <==> exists b: nat :: VolumeAt(disk.sectors, b) && GoodRecord(disk.sectors[b], disk.ss)
    ensures res == Ok ==>
      && VolumeAt(disk.sectors, fs.geo.volbase)
      && LaysOut(disk.sectors[fs.geo.volbase], disk.ss, fs.geo.volbase, fs.geo)
    ensures res == Ok <==>
      VolumeStart(disk.sectors).Some? && var b := VolumeStart(disk.sectors).value;
      |disk.sectors[b]| == disk.ss && BpbOf(LoadBpb(disk.sectors[b]), disk.ss, b).Some?
    ensures res == Ok ==>
      var b := VolumeStart(disk.sectors).value;
      && fs.Valid() && fs.disk == disk && fs.win == win && !fs.wflag
      && fs.geo == BpbOf(LoadBpb(disk.sectors[b]), disk.ss, b).value
      && fs.Img() == Blank(fs.geo, disk.sectors) && fs.fats == [fs.Fat()]
      && fs.fsiOff == !UsesFsInfo(disk.sectors, fs.geo, b)
      && (if fs.fsiOff then fs.freeClst == fs.lastClst == 0xFFFF_FFFF
          else (fs.freeClst, fs.lastClst) == FsInfoHints(disk.sectors, fs.geo, b))
  {
    hide Times, Quotient, Remainder;
    hide LdWord, LdDword, Classify, BpbOf, LoadBpb, VolumeStart, VolumeAt, GoodRecord, LaysOut, Geo.Sound, FatFs.Ready, FatFs.Journaled, Traced;
    fs := null;
    var kind, bsect := FindBoot(disk, win);
    if kind == Unreadable { return DiskErr, null; }
    if kind != FatBoot { return NoFilesystem, null; }
    var g := ReadBpb(win, bsect);
    RecordAccepted(win[..], disk.ss, bsect);
    if g == None { return NoFilesystem, null; }
    var free, last, off, at := 0xFFFF_FFFF, 0xFFFF_FFFF, true, bsect;
    if g.value.fsType == Fat32 && LdWord(win[..], 48) == 1 {
      var ok := disk.Read(win, bsect + 1);
      at := if ok then bsect + 1 else NO_SECTOR;
      if ok {
        off := false;
        if LdWord(win[..], 510) == 0xAA55 && LdDword(win[..], 0) == 0x4161_5252 && LdDword(win[..], 484) == 0x6141_7272 {
          free := LdDword(win[..], 488);
          last := LdDword(win[..], 492);
        }
      }
    }
    BpbPlace(LoadBpb(disk.sectors[bsect]), disk.ss, bsect, g.value);
    assert VolumeAt(disk.sectors, bsect);
    fs := new FatFs(disk, g.value, win, at, free, last, off);
    res := Ok;
  }
}
