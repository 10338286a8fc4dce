/** The layout part of `f_mkfs`: cluster size, FAT size and FAT type of a volume of a given
    size, found by trial. */
module MkfsLayout {
  import opened Arith
  import opened Geometry
  import opened Mount
  import opened Window

  const N_ROOTDIR: nat := 512
  const N_FATS: nat := 1
  // the erase block size in effect: GET_BLOCK_SIZE is not supported by the driver
  const SZ_BLK: nat := 1

  /** A layout in sectors; one FAT. */
  datatype Plan = Plan(fmt: FsType, pau: nat, nclst: nat, szRsv: nat, szFat: nat, szDir: nat) {
    /** The layout find_volume will compute for a volume starting at bVol. */
    function Geometry(ss: nat, bVol: nat): Geo
    {
      Geo(fmt, N_FATS, pau, ss, if fmt == Fat32 then 0 else N_ROOTDIR, nclst + 2, szFat, bVol, bVol + szRsv,
          if fmt == Fat32 then 2 else bVol + szRsv + szFat, bVol + szRsv + szFat + szDir)
    }
  }

  function RootDirSectors(fmt: FsType, ss: nat): nat
    requires ss > 0
  {
    if fmt == Fat32 then 0 else N_ROOTDIR * SZDIRE / ss
  }

  /** What a finished layout has to satisfy. */
  ghost predicate Laid(p: Plan, ss: nat, szVol: nat)
  {
    && ValidSectorSize(ss) && IsPow2(p.pau) && p.pau <= 128
    && p.szRsv == Reserved(p.fmt) && p.szDir == RootDirSectors(p.fmt, ss)
    && p.szRsv + p.szFat + p.szDir + 16 * p.pau <= szVol < TWO32
    && p.nclst == (szVol - p.szRsv - p.szFat - p.szDir) / p.pau
    && p.fmt == SubType(p.nclst) && p.nclst <= MAX_FAT32
    && p.Geometry(ss, 0).FatBytes() <= p.szFat * ss
    && (p.fmt != Fat32 ==> p.szFat < 0x1_0000)
  }

  // ----- the automatic cluster size

  /** Sectors per cluster for a volume of szVol sectors if the caller leaves them open. */
  function AutoUnit(fmt: FsType, szVol: nat): (pau: nat)
    ensures 0 < pau <= 64
  {
    var n := if fmt == Fat32 then szVol / 0x2_0000 else szVol / 0x1000;
    var top := if fmt == Fat32 then [1, 2, 4, 8, 16, 32] else [1, 4, 16, 64, 256, 512];
    if n < top[0] then 1 else if n < top[1] then 2 else if n < top[2] then 4
    else if n < top[3] then 8 else if n < top[4] then 16 else if n < top[5] then 32 else 64
  }

  /** The cluster size doubles for every row of the table that the volume size reaches. */
  method PickUnit(cst: seq<nat>, n: nat) returns (pau: nat, ghost i: nat)
    requires |cst| == 7 && cst[6] == 0
    ensures i <= 6 && pau == [1, 2, 4, 8, 16, 32, 64][i]
    ensures (forall j :: 0 <= j < i ==> 0 != cst[j] <= n) && (cst[i] == 0 || cst[i] > n)
    ensures IsPow2(pau) && pau <= 64
  {
    var at: nat := 0;
    pau := 1;
    while at < |cst| && cst[at] != 0 && cst[at] <= n
      invariant at <= 6 && pau == [1, 2, 4, 8, 16, 32, 64][at]
      invariant forall j :: 0 <= j < at ==> 0 != cst[j] <= n
    {
      at := at + 1;
      pau := pau * 2;
    }
    i := at;
    UnitIsPow2(i);
  }

  lemma UnitIsPow2(i: nat)
    requires i <= 6
    ensures IsPow2([1, 2, 4, 8, 16, 32, 64][i])
  {
    assert IsPow2(8) && IsPow2(16);
    assert IsPow2(32) && IsPow2(64);
  }

  // ----- one trial

  /** The FAT type tried for n0 = sz_vol / pau clusters. */
  function TrialType(fmt0: FsType, n0: nat): FsType
  {
    if fmt0 == Fat32 then Fat32 else if n0 > MAX_FAT12 then Fat16 else Fat12
  }

  /** The FAT size set aside for n0 clusters, in DWORD arithmetic. */
  function FatSectors(fmt: FsType, n0: nat, ss: nat): nat
    requires ss > 0
  {
    Quotient(U32(TableBytes(fmt, n0) + ss - 1), ss)
  }

  function TableBytes(fmt: FsType, n0: nat): nat
  {
    match fmt
    case Fat32 => U32(n0 * 4) + 8
    case Fat16 => U32(U32(n0 * 2) + 4)
    case Fat12 => U32(U32(n0 * 3) + 1) / 2 + 3
  }

  /** The provisional type and FAT size. */
  ghost predicate Sized(fmt0: FsType, fmt: FsType, n0: nat, szFat: nat, ss: nat)
    requires ValidSectorSize(ss)
  {
    && fmt == TrialType(fmt0, n0) && szFat == FatSectors(fmt, n0, ss)
    && (fmt0 == Fat32 ==> MAX_FAT16 < n0 <= MAX_FAT32)
  }

  function Reserved(fmt: FsType): nat
  {
    if fmt == Fat32 then 32 else 1
  }

  /** Sectors in front of the data area. */
  function Overhead(fmt: FsType, n0: nat, ss: nat): nat
    requires ss > 0
  {
    Reserved(fmt) + FatSectors(fmt, n0, ss) + RootDirSectors(fmt, ss)
  }

  /** The areas of a provisional plan. */
  ghost predicate Provisional(fmt0: FsType, p: Plan, ss: nat, szVol: nat)
    requires ValidSectorSize(ss)
  {
    && 0 < p.pau <= 128 && IsPow2(p.pau)
    && Sized(fmt0, p.fmt, szVol / p.pau, p.szFat, ss)
    && p.szRsv == Reserved(p.fmt) && p.szDir == RootDirSectors(p.fmt, ss)
  }

  /** Cluster size, provisional FAT type and sizes of the areas. */
  method Provision(fmt0: FsType, au: nat, szVol: nat, ss: nat) returns (ok: bool, p: Plan)
    requires ValidSectorSize(ss) && szVol < TWO32 && au <= 128 && (au == 0 || IsPow2(au))
    requires fmt0 != Fat12
    ensures p.pau > 0 && p.pau == if au != 0 then au else AutoUnit(fmt0, szVol)
    ensures ok <==> (fmt0 == Fat32 ==> MAX_FAT16 < Quotient(szVol, p.pau) <= MAX_FAT32)
    ensures ok ==> Provisional(fmt0, p, ss, szVol)
  {
    Arithmetic();
    hide Times, Quotient, Remainder, IsPow2, U32, AutoUnit;
    ok := true;
    var fmt, pau, szRsv, szFat, szDir := fmt0, au, 0, 0, 0;
    if fmt == Fat32 {
      if pau == 0 { pau := ChooseUnit(fmt, szVol); }
      Pow2Positive(pau);
      var nClst := szVol / pau;
      szFat := U32(U32(nClst * 4) + 8 + ss - 1) / ss;
      szRsv := 32;
      szDir := 0;
      if nClst <= MAX_FAT16 || nClst > MAX_FAT32 { ok := false; }
    } else {
      if pau == 0 { pau := ChooseUnit(fmt, szVol); }
      Pow2Positive(pau);
      var nClst := szVol / pau;
      var n;
      if nClst > MAX_FAT12 {
        n := U32(U32(nClst * 2) + 4);
      } else {
        fmt := Fat12;
        n := U32(U32(nClst * 3) + 1) / 2 + 3;
      }
      szFat := U32(n + ss - 1) / ss;
      szRsv := 1;
      szDir := N_ROOTDIR * SZDIRE / ss;
    }
    p := Plan(fmt, pau, 0, szRsv, szFat, szDir);
  }

  /** The automatic choice, from the table for FAT32 or the one for FAT12/16. */
  method ChooseUnit(fmt: FsType, szVol: nat) returns (pau: nat)
    ensures pau == AutoUnit(fmt, szVol) && IsPow2(pau)
  {
    hide IsPow2;
    var cst: seq<nat> := if fmt == Fat32 then [1, 2, 4, 8, 16, 32, 0] else [1, 4, 16, 64, 256, 512, 0];
    var n := if fmt == Fat32 then szVol / 0x2_0000 else szVol / 0x1000;
    ghost var i;
    pau, i := PickUnit(cst, n);
    UnitIs(fmt, szVol, cst, n, i);
  }

  lemma UnitIs(fmt: FsType, szVol: nat, cst: seq<nat>, n: nat, i: nat)
    requires if fmt == Fat32 then n == szVol / 0x2_0000 && cst == [1, 2, 4, 8, 16, 32, 0]
      else n == szVol / 0x1000 && cst == [1, 4, 16, 64, 256, 512, 0]
    requires i <= 6 && (forall j :: 0 <= j < i ==> 0 != cst[j] <= n) && (cst[i] == 0 || cst[i] > n)
    ensures AutoUnit(fmt, szVol) == [1, 2, 4, 8, 16, 32, 64][i]
  {
    if i > 0 { assert cst[i - 1] <= n; }
  }

  lemma Pow2Positive(n: nat)
    requires IsPow2(n)
    ensures n > 0
  {
  }

  /** A FAT sized for the provisional cluster count is large enough for the final one. */
  lemma FatIsLargeEnough(fmt0: FsType, p: Plan, ss: nat, szVol: nat)
    requires ValidSectorSize(ss) && szVol < TWO32 && 0 < p.pau <= 128 && fmt0 != Fat12
    requires Sized(fmt0, p.fmt, szVol / p.pau, p.szFat, ss) && p.szDir <= 32 && p.szRsv <= 32
    requires p.szRsv + p.szFat + p.szDir <= szVol
    requires p.nclst == (szVol - p.szRsv - p.szFat - p.szDir) / p.pau
    requires p.fmt == SubType(p.nclst)
    ensures p.nclst <= MAX_FAT32 && p.Geometry(ss, 0).FatBytes() <= p.szFat * ss
    ensures p.fmt != Fat32 ==> p.szFat < 0x1_0000
  {
    hide Sized, Geo.FatBytes, SubType;
    DivMono(szVol - p.szRsv - p.szFat - p.szDir, szVol, p.pau);
    SizedBound(fmt0, p.fmt, szVol / p.pau, p.szFat, ss);
    SubTypeBound(p.nclst);
    if p.fmt == Fat16 { NoWrap16(p, ss, szVol); }
    LargeEnough(fmt0, p, szVol / p.pau, ss);
  }

  lemma SizedBound(fmt0: FsType, fmt: FsType, n0: nat, szFat: nat, ss: nat)
    requires ValidSectorSize(ss) && Sized(fmt0, fmt, n0, szFat, ss) && fmt0 != Fat12
    ensures szFat <= TWO32 / 512
  {
    Arithmetic();
    hide Times, Quotient, Remainder;
    hide U32;
  }

  lemma SubTypeBound(n: nat)
    ensures SubType(n) == Fat16 ==> n <= MAX_FAT16
  {
  }

  lemma LargeEnough(fmt0: FsType, p: Plan, n0: nat, ss: nat)
    requires ValidSectorSize(ss) && Sized(fmt0, p.fmt, n0, p.szFat, ss) && fmt0 != Fat12
    requires p.nclst <= n0 && p.fmt == SubType(p.nclst) && (p.fmt == Fat16 ==> n0 < 16_776_100)
    ensures p.nclst <= MAX_FAT32 && p.Geometry(ss, 0).FatBytes() <= p.szFat * ss
    ensures p.fmt != Fat32 ==> p.szFat < 0x1_0000
  {
    Arithmetic();
    hide Times, Quotient, Remainder;
    hide U32, Geo.FatBytes;
    BytesOf(p, ss);
    match p.fmt {
      case Fat32 => Large32(n0, p.nclst, p.szFat, ss);
      case Fat16 => Large16(n0, p.nclst, p.szFat, ss);
      case Fat12 => Large12(n0, p.nclst, p.szFat, ss);
    }
  }

  lemma BytesOf(p: Plan, ss: nat)
    ensures p.Geometry(ss, 0).FatBytes() ==
      match p.fmt { case Fat32 => p.nclst * 4 + 8 case Fat16 => p.nclst * 2 + 4 case Fat12 => (p.nclst * 3 + 1) / 2 + 3 }
  {
  }

  lemma Large32(n0: nat, n: nat, szFat: nat, ss: nat)
    requires ValidSectorSize(ss) && n <= n0 <= MAX_FAT32 && szFat == U32(U32(n0 * 4) + 8 + ss - 1) / ss
    ensures n * 4 + 8 <= szFat * ss
  {
    SectorsHold(ss, n0 * 4 + 8, szFat);
  }

  lemma Large16(n0: nat, n: nat, szFat: nat, ss: nat)
    requires ValidSectorSize(ss) && n <= n0 < 16_776_100 && szFat == U32(U32(U32(n0 * 2) + 4) + ss - 1) / ss
    ensures n * 2 + 4 <= szFat * ss
    ensures szFat < 0x1_0000
  {
    SectorsHold(ss, n0 * 2 + 4, szFat);
  }

  lemma Large12(n0: nat, n: nat, szFat: nat, ss: nat)
    requires ValidSectorSize(ss) && n <= n0 <= MAX_FAT12 && szFat == U32(U32(U32(n0 * 3) + 1) / 2 + 3 + ss - 1) / ss
    ensures (n * 3 + 1) / 2 + 3 <= szFat * ss && szFat < 0x1_0000
  {
    SectorsHold(ss, (n0 * 3 + 1) / 2 + 3, szFat);
  }

  lemma DivMono(a: nat, b: nat, d: nat)
    requires d > 0 && a <= b
    ensures a / d <= b / d
  {
    if a / d > b / d {
      MulMono(b / d + 1, a / d, d);
      assert false;
    }
  }

  /** A volume that ends up as FAT16 is small: its provisional FAT size did not wrap. */
  lemma NoWrap16(p: Plan, ss: nat, szVol: nat)
    requires ValidSectorSize(ss) && szVol < TWO32 && 0 < p.pau <= 128
    requires p.szFat <= TWO32 / 512 && p.szDir <= 32 && p.szRsv <= 32
    requires p.szRsv + p.szFat + p.szDir <= szVol
    requires p.nclst == (szVol - p.szRsv - p.szFat - p.szDir) / p.pau && p.nclst <= MAX_FAT16
    ensures szVol / p.pau <= szVol < 16_776_100
  {
    var x := szVol - p.szRsv - p.szFat - p.szDir;
    assert x < (p.nclst + 1) * p.pau;
    MulMono(p.nclst + 1, 0xFFF6, p.pau);
    QuotientBelow(szVol, p.pau);
  }

  // ----- the retry loop

  /** With an erase block of one sector the data area needs no alignment. */
  lemma NoAlignment(x: nat)
    requires x < TWO32
    ensures BitAnd(U32(x + SZ_BLK - 1), Not32(SZ_BLK - 1)) == x
  {
    Pow2Of32();
    ClearLow(x, 1, TWO32);
  }

  lemma Pow2Step(n: nat)
    requires IsPow2(n)
    ensures IsPow2(n * 2) && (n / 2 != 0 ==> IsPow2(n / 2)) && n > 0
  {
    assert n * 2 / 2 == n && n * 2 % 2 == 0;
  }

  datatype Verdict = Accept | Retry(fmt: FsType, au: nat) | Abort

  /** The final check of the FAT type: accept, retry with another cluster size or type, or
      give up. */
  function Judge(fmt: FsType, nclst: nat, pau: nat, au: nat, fat32: bool): Verdict
  {
    match fmt
    case Fat32 =>
      if nclst <= MAX_FAT16 then (if au == 0 && pau / 2 != 0 then Retry(Fat32, pau / 2) else Abort)
      else Accept
    case Fat16 =>
      if nclst > MAX_FAT16 then
        (if au == 0 && pau * 2 <= 64 then Retry(Fat16, pau * 2)
         else if fat32 then Retry(Fat32, au)
         else if au == 0 && pau * 2 <= 128 then Retry(Fat16, pau * 2)
         else Abort)
      else if nclst <= MAX_FAT12 then (if au == 0 && pau * 2 <= 128 then Retry(Fat16, pau * 2) else Abort)
      else Accept
    case Fat12 =>
      if nclst > MAX_FAT12 then Abort else Accept
  }

  lemma JudgeFacts(fmt: FsType, nclst: nat, pau: nat, au: nat, fat32: bool)
    requires IsPow2(pau) && au <= 128 && (au == 0 || IsPow2(au)) && pau <= 128
    ensures var v := Judge(fmt, nclst, pau, au, fat32);
      && (v == Accept ==> fmt == SubType(nclst))
      && (v.Retry? ==>
        && v.au <= 128 && (v.au == 0 || IsPow2(v.au)) && (au != 0 ==> v.au == au)
        && ((v.fmt == Fat32 && fmt == Fat16 && fat32 && v.au == au) || (v.fmt == fmt != Fat12 && au == 0 && v.au != 0)))
  {
    Pow2Step(pau);
    hide IsPow2;
  }

  /** The verdict on one trial. */
  function TrialOf(fmt0: FsType, au: nat, szVol: nat, ss: nat, fat32: bool): Verdict
    requires ss > 0
  {
    var pau := if au != 0 then au else AutoUnit(fmt0, szVol);
    var n0 := Quotient(szVol, pau);
    var fmt := TrialType(fmt0, n0);
    if fmt0 == Fat32 && !(MAX_FAT16 < n0 <= MAX_FAT32) then Abort
    else if Overhead(fmt, n0, ss) + 16 * pau > szVol then Abort
    else
      var room: nat := szVol - Overhead(fmt, n0, ss);
      Judge(fmt, Quotient(room, pau), pau, au, fat32)
  }

  /** Whether the trials that start with this one end in a layout. */
  predicate Settles(fmt0: FsType, au: nat, szVol: nat, ss: nat, fat32: bool)
    requires ss > 0
    decreases TrialsLeft(fmt0, au)
  {
    match TrialOf(fmt0, au, szVol, ss, fat32)
    case Accept => true
    case Abort => false
    case Retry(f, a) => TrialsLeft(f, a) < TrialsLeft(fmt0, au) && Settles(f, a, szVol, ss, fat32)
  }

  /** The layout the trials that start with this one end in, if they do: whether it is FAT32,
      and its sectors per cluster. */
  function Chosen(fmt0: FsType, au: nat, szVol: nat, ss: nat, fat32: bool): (bool, nat)
    requires ss > 0
    decreases TrialsLeft(fmt0, au)
  {
    match TrialOf(fmt0, au, szVol, ss, fat32)
    case Accept => (fmt0 == Fat32, if au != 0 then au else AutoUnit(fmt0, szVol))
    case Abort => (false, 0)
    case Retry(f, a) => if TrialsLeft(f, a) < TrialsLeft(fmt0, au) then Chosen(f, a, szVol, ss, fat32) else (false, 0)
  }

  /** One trial. */
  method Trial(fmt0: FsType, au: nat, bVol: nat, szVol: nat, ss: nat, fat32: bool) returns (v: Verdict, p: Plan)
    requires ValidSectorSize(ss) && bVol <= 63 && bVol + szVol < TWO32 && fmt0 != Fat12
    requires au <= 128 && (au == 0 || IsPow2(au))
    ensures v == Accept ==> Laid(p, ss, szVol) && p.pau == if au != 0 then au else AutoUnit(fmt0, szVol)
    ensures v == Accept ==> (fmt0 == Fat32 <==> p.fmt == Fat32)
    ensures v.Retry? ==> v.au <= 128 && (v.au == 0 || IsPow2(v.au)) && (au != 0 ==> v.au == au)
    ensures v.Retry? ==> (v.fmt == Fat32 && fmt0 == Fat16 && fat32 && v.au == au) || (v.fmt == fmt0 && au == 0 && v.au != 0)
    ensures v == TrialOf(fmt0, au, szVol, ss, fat32)
  {
    hide IsPow2, Provisional, Settled, Laid, Judge, SubType, U32, FatSectors, Quotient, TrialType, Overhead, AutoUnit;
    var ok;
    ok, p := Provision(fmt0, au, szVol, ss);
    if !ok { return Abort, p; }
    ghost var q := p;
    ProvisionalFacts(fmt0, q, ss, szVol);
    ProvisionalSize(fmt0, q, ss, szVol);
    ok, p := Place(p, bVol, szVol);
    if !ok { return Abort, p; }
    SettledFacts(q, p, szVol);
    v := Judge(p.fmt, p.nclst, p.pau, au, fat32);
    JudgeFacts(p.fmt, p.nclst, p.pau, au, fat32);
    if v == Accept { Accepted(fmt0, q, p, ss, szVol); }
  }

  /** The plan after placing it in the volume: only the cluster count is added. */
  ghost predicate Settled(q: Plan, p: Plan, szVol: nat)
  {
    && q.szRsv + q.szFat + q.szDir + 16 * q.pau <= szVol && q.pau > 0
    && p == q.(nclst := (szVol - q.szRsv - q.szFat - q.szDir) / q.pau)
  }

  lemma SettledFacts(q: Plan, p: Plan, szVol: nat)
    requires Settled(q, p, szVol)
    ensures p.fmt == q.fmt && p.pau == q.pau
    ensures 0 < q.pau && q.szRsv + q.szFat + q.szDir <= szVol
    ensures p.nclst == Quotient(szVol - (q.szRsv + q.szFat + q.szDir), q.pau)
  {
    Arithmetic();
    hide Times, Quotient, Remainder;
  }

  lemma ProvisionalFacts(fmt0: FsType, p: Plan, ss: nat, szVol: nat)
    requires ValidSectorSize(ss) && Provisional(fmt0, p, ss, szVol) && fmt0 != Fat12
    ensures 0 < p.pau <= 128 && IsPow2(p.pau) && p.szRsv <= 32 && p.szFat <= TWO32 / 512 && p.szDir <= 32
    ensures p.fmt == fmt0 || (fmt0 == Fat16 && p.fmt == Fat12)
  {
    hide IsPow2, Sized;
    SizedBound(fmt0, p.fmt, szVol / p.pau, p.szFat, ss);
    SizedType(fmt0, p.fmt, szVol / p.pau, p.szFat, ss);
  }

  lemma ProvisionalSize(fmt0: FsType, p: Plan, ss: nat, szVol: nat)
    requires ValidSectorSize(ss) && p.pau > 0 && Provisional(fmt0, p, ss, szVol)
    ensures p.fmt == TrialType(fmt0, Quotient(szVol, p.pau))
    ensures p.szRsv + p.szFat + p.szDir == Overhead(p.fmt, Quotient(szVol, p.pau), ss)
  {
    Arithmetic();
    hide Times, Quotient, Remainder;
    hide IsPow2, U32;
  }

  /** Align the data area, check that the volume is not too small, and count the clusters. */
  method Place(q: Plan, bVol: nat, szVol: nat) returns (ok: bool, p: Plan)
    requires bVol <= 63 && bVol + szVol < TWO32 && 0 < q.pau <= 128
    requires q.szRsv <= 32 && q.szFat <= TWO32 / 512 && q.szDir <= 32
    ensures ok <==> q.szRsv + q.szFat + q.szDir + 16 * q.pau <= szVol
    ensures ok ==> Settled(q, p, szVol)
  {
    hide U32, BitAnd;
    p := q;
    var szRsv, szFat := q.szRsv, q.szFat;
    var bFat := bVol + szRsv;
    var bData := bFat + szFat * N_FATS + q.szDir;
    NoAlignment(bData);
    var n := BitAnd(U32(bData + SZ_BLK - 1), Not32(SZ_BLK - 1)) - bData;
    if q.fmt == Fat32 { szRsv := szRsv + n; } else { szFat := szFat + n / N_FATS; }
    ok := szVol >= bData + q.pau * 16 - bVol;
    if !ok { return; }
    var room: nat := szVol - szRsv - szFat * N_FATS - q.szDir;
    p := Plan(q.fmt, q.pau, room / q.pau, szRsv, szFat, q.szDir);
  }

  lemma SizedType(fmt0: FsType, fmt: FsType, n0: nat, szFat: nat, ss: nat)
    requires ValidSectorSize(ss) && Sized(fmt0, fmt, n0, szFat, ss) && fmt0 != Fat12
    ensures fmt == fmt0 || (fmt0 == Fat16 && fmt == Fat12)
  {
    hide U32;
  }

  lemma Accepted(fmt0: FsType, q: Plan, p: Plan, ss: nat, szVol: nat)
    requires ValidSectorSize(ss) && szVol < TWO32 && fmt0 != Fat12
    requires Provisional(fmt0, q, ss, szVol) && Settled(q, p, szVol) && p.fmt == SubType(p.nclst)
    ensures Laid(p, ss, szVol)
  {
    ProvisionalFacts(fmt0, q, ss, szVol);
    hide IsPow2, Sized, Geo.FatBytes;
    FatIsLargeEnough(fmt0, p, ss, szVol);
  }

  /** Trials left: the type can be switched once and the cluster size be fixed once. */
  function TrialsLeft(fmt: FsType, au: nat): nat
  {
    (if fmt == Fat16 then 1 else 0) + (if au == 0 then 1 else 0)
  }

  /** The retry loop of `f_mkfs`. It always ends; a layout it settles on is complete, keeps a
      cluster size the caller asked for, and is FAT32 only if the caller allows it. When it
      settles is the subject of MkfsSizes. */
  method PlanVolume(fmt0: FsType, au0: nat, bVol: nat, szVol: nat, ss: nat, fat32: bool) returns (res: FResult, p: Plan)
    requires ValidSectorSize(ss) && bVol <= 63 && bVol + szVol < TWO32 && fmt0 != Fat12
    requires au0 <= 128 && (au0 == 0 || IsPow2(au0))
    ensures res == if Settles(fmt0, au0, szVol, ss, fat32) then Ok else MkfsAborted
    ensures res == Ok ==> Laid(p, ss, szVol) && (au0 != 0 ==> p.pau == au0)
    ensures res == Ok ==> (p.fmt == Fat32, p.pau) == Chosen(fmt0, au0, szVol, ss, fat32)
    ensures res == Ok && fmt0 == Fat32 ==> p.fmt == Fat32
    ensures res == Ok && fmt0 == Fat16 && !fat32 ==> p.fmt != Fat32
  {
    hide IsPow2, Laid, TrialOf;
    var fmt, au := fmt0, au0;
    while true
      invariant au <= 128 && (au == 0 || IsPow2(au)) && fmt != Fat12 && (au0 != 0 ==> au == au0)
      invariant fmt0 == Fat32 ==> fmt == Fat32
      invariant fmt0 == Fat16 && !fat32 ==> fmt == Fat16
      invariant Settles(fmt, au, szVol, ss, fat32) == Settles(fmt0, au0, szVol, ss, fat32)
      invariant Chosen(fmt, au, szVol, ss, fat32) == Chosen(fmt0, au0, szVol, ss, fat32)
      decreases TrialsLeft(fmt, au)
    {
      var v;
      v, p := Trial(fmt, au, bVol, szVol, ss, fat32);
      match v {
        case Accept => return Ok, p;
        case Retry(f, a) => fmt, au := f, a;
        case Abort => return MkfsAborted, p;
      }
    }
  }
}
