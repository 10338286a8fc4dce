/** Which volumes the trials of `f_mkfs` find a layout for. */
module MkfsSizes {
  import opened Arith
  import opened Geometry
  import opened MkfsLayout
  import opened Mount

  /** With pau sectors per cluster the volume has room for a FAT of this type, at least 16
      clusters, and a number of clusters that makes it a volume of this type. */
  predicate Fits(fmt: FsType, pau: nat, szVol: nat, ss: nat)
    requires ss > 0 && pau > 0
  {
    var n0 := Quotient(szVol, pau);
    && (fmt == Fat12 ==> n0 <= 0xFF5) && (fmt == Fat32 ==> n0 <= 0x0FFF_FFF5)
    && Overhead(fmt, n0, ss) + 16 * pau <= szVol
    && var n := Quotient(szVol - Overhead(fmt, n0, ss), pau);
       fmt == if n <= 0xFF5 then Fat12 else if n <= 0xFFF5 then Fat16 else Fat32
  }

  /** The largest volume that FAT16 can cover, with 128 sectors per cluster. */
  function Largest16(ss: nat): nat
    requires ss > 0
  {
    128 * (MAX_FAT16 + 1) + Quotient(0x2_4000, ss)
  }

  /** The smallest volume that has enough clusters for FAT32, with one sector per cluster. */
  function Smallest32(ss: nat): nat
  {
    if ss == 512 then 66_075 else if ss == 1024 then 65_816 else if ss == 2048 then 65_687 else 65_623
  }

  /** A layout exists. Left to choose the cluster size, the engine always has one if both
      FAT16 and FAT32 are allowed. */
  predicate Plannable(fat: bool, fat32: bool, unit: nat, szVol: nat, ss: nat)
    requires ss > 0
  {
    if unit == 0 then
      if fat then fat32 || szVol <= Largest16(ss) else fat32 && szVol >= Smallest32(ss)
    else
      || (fat && (Fits(Fat12, unit, szVol, ss) || Fits(Fat16, unit, szVol, ss)))
      || (fat32 && Fits(Fat32, unit, szVol, ss))
  }

  /** The retry loop settles exactly on the volumes that have a layout. */
  lemma SettlesWhenPlannable(fat: bool, fat32: bool, unit: nat, szVol: nat, ss: nat)
    requires ValidSectorSize(ss) && 128 <= szVol < TWO32 && unit <= 128 && (fat || fat32)
    ensures Settles(if fat then Fat16 else Fat32, unit, szVol, ss, fat32) <==> Plannable(fat, fat32, unit, szVol, ss)
  {
    hide Settles, Fits, Largest16, Smallest32;
    if unit == 0 {
      if fat { Automatic16(szVol, ss, fat32); } else { Automatic32(szVol, ss, fat32); }
    } else {
      if fat { Given16(unit, szVol, ss, fat32); } else { Given32(unit, szVol, ss, fat32); }
    }
  }

  // ----- sizes

  lemma QuotientBounds(a: nat, b: nat)
    requires b > 0
    ensures Quotient(a, b) * b <= a < Quotient(a, b) * b + b && Quotient(a, b) <= a
  {
    QuotientBelow(a, b);
  }

  lemma QuotientMono(a: nat, b: nat, d: nat)
    requires d > 0 && a <= b
    ensures Quotient(a, d) <= Quotient(b, d)
  {
    DivMono(a, b, d);
  }

  /** What the overhead is, in bytes rounded up to sectors. */
  lemma OverheadBounds(fmt: FsType, n0: nat, ss: nat)
    requires ValidSectorSize(ss) && n0 <= MAX_FAT32
    ensures var lower := match fmt {
        case Fat12 => ss + 0x4000 + (n0 * 3 + 1) / 2 + 3
        case Fat16 => ss + 0x4000 + n0 * 2 + 4
        case Fat32 => ss * 32 + n0 * 4 + 8 };
      lower <= Overhead(fmt, n0, ss) * ss < lower + ss
  {
    var f, d := FatSectors(fmt, n0, ss), RootDirSectors(fmt, ss);
    QuotientBounds(TableBytes(fmt, n0) + ss - 1, ss);
    assert f * ss < TableBytes(fmt, n0) + ss && f * ss >= TableBytes(fmt, n0) by { hide Quotient; }
    assert d * ss == if fmt == Fat32 then 0 else 0x4000;
    hide FatSectors, RootDirSectors, U32;
    Distribute(Reserved(fmt), f, d, ss);
  }

  lemma Distribute(r: nat, f: nat, d: nat, ss: nat)
    ensures (r + f + d) * ss == r * ss + f * ss + d * ss
  {
  }

  lemma OverheadSmall(fmt: FsType, n0: nat, ss: nat)
    requires ValidSectorSize(ss) && n0 <= MAX_FAT32
    ensures Overhead(fmt, n0, ss) <= 36 + n0 / 128
    ensures fmt != Fat32 ==> Overhead(fmt, n0, ss) <= 36 + n0 / 256
  {
    OverheadBounds(fmt, n0, ss);
    hide Overhead;
    var u := Overhead(fmt, n0, ss);
    match fmt {
      case Fat12 => Excess(u, 2, 0x4000 + (n0 * 3 + 1) / 2 + 3, ss);
      case Fat16 => Excess(u, 2, 0x4000 + n0 * 2 + 4, ss);
      case Fat32 => Excess(u, 33, n0 * 4 + 8, ss);
    }
  }

  lemma Excess(u: nat, r: nat, c: nat, ss: nat)
    requires ss >= 512 && u * ss < r * ss + c
    ensures u <= r + c / 512
  {
    if u > r + c / 512 {
      MulMono(c / 512 + 1, u - r, ss);
      MulMono(512, ss, c / 512 + 1);
      assert false;
    }
  }

  // ----- a cluster size the caller asked for

  lemma Given32(pau: nat, szVol: nat, ss: nat, fat32: bool)
    requires ValidSectorSize(ss) && szVol < TWO32 && 0 < pau <= 128
    ensures Settles(Fat32, pau, szVol, ss, fat32) <==> Fits(Fat32, pau, szVol, ss)
  {
    hide Overhead, Quotient;
    var n0 := Quotient(szVol, pau);
    if Overhead(Fat32, n0, ss) <= szVol { QuotientMono(szVol - Overhead(Fat32, n0, ss), szVol, pau); }
  }

  lemma Given16(pau: nat, szVol: nat, ss: nat, fat32: bool)
    requires ValidSectorSize(ss) && szVol < TWO32 && 0 < pau <= 128
    ensures Settles(Fat16, pau, szVol, ss, fat32) <==>
      Fits(Fat12, pau, szVol, ss) || Fits(Fat16, pau, szVol, ss) || (fat32 && Fits(Fat32, pau, szVol, ss))
  {
    hide Overhead, Quotient, Settles;
    var n0 := Quotient(szVol, pau);
    if Overhead(Fat12, n0, ss) <= szVol { QuotientMono(szVol - Overhead(Fat12, n0, ss), szVol, pau); }
    if Overhead(Fat16, n0, ss) <= szVol { QuotientMono(szVol - Overhead(Fat16, n0, ss), szVol, pau); }
    if Overhead(Fat32, n0, ss) <= szVol { QuotientMono(szVol - Overhead(Fat32, n0, ss), szVol, pau); }
    Given32(pau, szVol, ss, fat32);
    if Fits(Fat32, pau, szVol, ss) { LessThan32(n0, ss, pau, szVol); }
    SettlesIs(Fat16, pau, szVol, ss, fat32);
  }

  lemma SettlesIs(fmt: FsType, au: nat, szVol: nat, ss: nat, fat32: bool)
    requires ss > 0
    ensures var v := TrialOf(fmt, au, szVol, ss, fat32);
      Settles(fmt, au, szVol, ss, fat32) <==>
        v == Accept || (v.Retry? && TrialsLeft(v.fmt, v.au) < TrialsLeft(fmt, au) && Settles(v.fmt, v.au, szVol, ss, fat32))
  {
    hide TrialOf;
  }

  /** Where FAT32 fits, FAT16 has room but too many clusters. */
  lemma LessThan32(n0: nat, ss: nat, pau: nat, szVol: nat)
    requires ValidSectorSize(ss) && MAX_FAT16 < n0 <= MAX_FAT32 && Overhead(Fat32, n0, ss) <= szVol && pau > 0
    ensures Overhead(Fat16, n0, ss) <= Overhead(Fat32, n0, ss)
    ensures Quotient(szVol - Overhead(Fat32, n0, ss), pau) <= Quotient(szVol - Overhead(Fat16, n0, ss), pau)
  {
    assert Overhead(Fat16, n0, ss) <= Overhead(Fat32, n0, ss) by {
      hide Overhead;
      OverheadBounds(Fat16, n0, ss);
      OverheadBounds(Fat32, n0, ss);
    }
    hide Overhead, Quotient;
    QuotientMono(szVol - Overhead(Fat32, n0, ss), szVol - Overhead(Fat16, n0, ss), pau);
  }

  // ----- a cluster size left to the engine

  /** Judging a FAT32 trial with n0 clusters: n0 is in range and there is room. */
  lemma Judged32(au: nat, pau: nat, szVol: nat, ss: nat, fat32: bool)
    requires ValidSectorSize(ss) && szVol < TWO32 && 0 < pau <= 64
    requires pau == if au != 0 then au else AutoUnit(Fat32, szVol)
    requires MAX_FAT16 < Quotient(szVol, pau) <= MAX_FAT32
    ensures var u := Overhead(Fat32, Quotient(szVol, pau), ss);
      u <= szVol && TrialOf(Fat32, au, szVol, ss, fat32) == Judge(Fat32, Quotient(szVol - u, pau), pau, au, fat32)
  {
    var n0 := Quotient(szVol, pau);
    QuotientBounds(szVol, pau);
    OverheadSmall(Fat32, n0, ss);
    hide Overhead, Quotient, AutoUnit, Judge;
    MulMono(1, pau, n0);
    MulMono(0xFFF6, n0, pau);
  }

  /** Twice as many clusters as FAT32 needs are enough. */
  lemma Enough32(pau: nat, szVol: nat, ss: nat)
    requires ValidSectorSize(ss) && szVol < TWO32 && 0 < pau <= 64 && szVol >= 0x2_0000 * pau
    requires Quotient(szVol, pau) <= MAX_FAT32
    ensures var u := Overhead(Fat32, Quotient(szVol, pau), ss);
      u <= szVol && Quotient(szVol - u, pau) > MAX_FAT16 && Quotient(szVol, pau) > MAX_FAT16
  {
    var n0 := Quotient(szVol, pau);
    QuotientBounds(szVol, pau);
    OverheadSmall(Fat32, n0, ss);
    var u := Overhead(Fat32, n0, ss);
    hide Overhead, Quotient;
    MulMono(1, pau, n0);
    assert u <= szVol;
    QuotientBounds(szVol - u, pau);
    AtLeast(szVol - u, 0xFFF6, pau);
    AtLeast(szVol, 0xFFF6, pau);
  }

  lemma AtLeast(a: nat, n: nat, b: nat)
    requires b > 0 && n * b <= a
    ensures Quotient(a, b) >= n
  {
    Arithmetic();
    hide Times, Quotient, Remainder;
    QuotientMono(n * b, a, b);
    assert n * b / b == n;
  }

  lemma AtMost(a: nat, n: nat, b: nat)
    requires b > 0 && a < n * b
    ensures Quotient(a, b) < n
  {
    Arithmetic();
    hide Times, Quotient, Remainder;
    DivBelow(a, n, b);
  }

  lemma Automatic32(szVol: nat, ss: nat, fat32: bool)
    requires ValidSectorSize(ss) && 128 <= szVol < TWO32
    ensures Settles(Fat32, 0, szVol, ss, fat32) <==> szVol >= Smallest32(ss)
  {
    if szVol < 0x2_0000 { OneSector(szVol, ss, fat32); } else { MoreSectors(szVol, ss, fat32); }
  }

  lemma OneSector(szVol: nat, ss: nat, fat32: bool)
    requires ValidSectorSize(ss) && 128 <= szVol < 0x2_0000
    ensures Settles(Fat32, 0, szVol, ss, fat32) <==> szVol >= Smallest32(ss)
  {
    Arithmetic();
    hide Times, Quotient, Remainder;
    assert AutoUnit(Fat32, szVol) == 1 && Quotient(szVol, 1) == szVol;
    SettlesIs(Fat32, 0, szVol, ss, fat32);
    var u := Overhead(Fat32, szVol, ss);
    if szVol > MAX_FAT16 {
      Judged32(0, 1, szVol, ss, fat32);
      OverheadBounds(Fat32, szVol, ss);
      assert Quotient(szVol - u, 1) == szVol - u;
      hide Settles, Overhead, TrialOf, AutoUnit, Quotient;
      FirstFit32(szVol, u, ss);
    } else {
      hide Settles, Overhead, AutoUnit, Quotient;
    }
  }

  lemma FirstFit32(szVol: nat, u: nat, ss: nat)
    requires ValidSectorSize(ss) && szVol < 0x2_0000
    requires ss * 32 + szVol * 4 + 8 <= u * ss < ss * 33 + szVol * 4 + 8
    ensures szVol - u > MAX_FAT16 <==> szVol >= Smallest32(ss)
  {
  }

  lemma MoreSectors(szVol: nat, ss: nat, fat32: bool)
    requires ValidSectorSize(ss) && 0x2_0000 <= szVol < TWO32
    ensures Settles(Fat32, 0, szVol, ss, fat32)
  {
    var pau := AutoUnit(Fat32, szVol);
    assert pau >= 2 && szVol >= 0x1_0000 * pau && (pau < 64 ==> szVol < 0x2_0000 * pau);
    hide Settles, Overhead, AutoUnit, TrialOf;
    FewClusters(pau, szVol);
    SettlesIs(Fat32, 0, szVol, ss, fat32);
    Judged32(0, pau, szVol, ss, fat32);
    if TrialOf(Fat32, 0, szVol, ss, fat32) != Accept {
      Enough32(pau / 2, szVol, ss);
      Judged32(pau / 2, pau / 2, szVol, ss, fat32);
      SettlesIs(Fat32, pau / 2, szVol, ss, fat32);
    }
  }

  lemma FewClusters(pau: nat, szVol: nat)
    requires 2 <= pau <= 64 && szVol >= 0x1_0000 * pau && szVol < TWO32 && (pau < 64 ==> szVol < 0x2_0000 * pau)
    ensures MAX_FAT16 < Quotient(szVol, pau) <= MAX_FAT32 && Quotient(szVol, pau / 2) <= MAX_FAT32
  {
    AtLeast(szVol, 0x1_0000, pau);
    hide Quotient;
    if pau == 64 {
      AtMost(szVol, 0x400_0000, 64);
      AtMost(szVol, 0x800_0000, 32);
    } else {
      AtMost(szVol, 0x2_0000, pau);
      AtMost(szVol, 0x6_0000, pau / 2);
    }
  }

  /** A FAT12 trial is accepted as soon as there is room. */
  lemma Judged12(au: nat, pau: nat, szVol: nat, ss: nat, fat32: bool)
    requires ValidSectorSize(ss) && 128 <= szVol < TWO32 && 0 < pau <= 8 && (pau > 1 ==> szVol >= 4086)
    requires pau == if au != 0 then au else AutoUnit(Fat16, szVol)
    requires Quotient(szVol, pau) <= MAX_FAT12
    ensures TrialOf(Fat16, au, szVol, ss, fat32) == Accept
  {
    var n0 := Quotient(szVol, pau);
    OverheadSmall(Fat12, n0, ss);
    var u := Overhead(Fat12, n0, ss);
    hide Overhead, Quotient, AutoUnit;
    Room12(u, n0, pau, szVol);
    QuotientMono(szVol - u, szVol, pau);
    TrialIs(Fat16, au, pau, szVol, ss, fat32, Fat12, n0, u);
    hide TrialOf;
  }

  /** The verdict on a trial with room. */
  lemma TrialIs(fmt0: FsType, au: nat, pau: nat, szVol: nat, ss: nat, fat32: bool, fmt: FsType, n0: nat, u: nat)
    requires ss > 0 && pau > 0 && pau == if au != 0 then au else AutoUnit(fmt0, szVol)
    requires n0 == Quotient(szVol, pau) && fmt == TrialType(fmt0, n0) && (fmt0 == Fat32 ==> MAX_FAT16 < n0 <= MAX_FAT32)
    requires u == Overhead(fmt, n0, ss) && u + 16 * pau <= szVol
    ensures TrialOf(fmt0, au, szVol, ss, fat32) == Judge(fmt, Quotient(szVol - u, pau), pau, au, fat32)
  {
    hide Overhead, Quotient, AutoUnit, Judge;
  }

  lemma Room12(u: nat, n0: nat, pau: nat, szVol: nat)
    requires u <= 36 + n0 / 256 && n0 <= MAX_FAT12 && 128 <= szVol && 0 < pau <= 8 && (pau > 1 ==> szVol >= 4086)
    ensures u + 16 * pau <= szVol
  {
  }

  /** Judging a FAT16 trial: there is room, and neither more clusters than tried for nor many
      fewer. */
  lemma Judged16(au: nat, pau: nat, szVol: nat, ss: nat, fat32: bool)
    requires ValidSectorSize(ss) && szVol < TWO32 && 0 < pau <= 128
    requires pau == if au != 0 then au else AutoUnit(Fat16, szVol)
    requires MAX_FAT12 < Quotient(szVol, pau) <= MAX_FAT32
    ensures var u := Overhead(Fat16, Quotient(szVol, pau), ss);
      && u <= szVol && TrialOf(Fat16, au, szVol, ss, fat32) == Judge(Fat16, Quotient(szVol - u, pau), pau, au, fat32)
      && Quotient(szVol - u, pau) <= Quotient(szVol, pau) && u <= 36 + Quotient(szVol, pau) / 256
      && (Quotient(szVol, pau) >= 8192 ==> Quotient(szVol - u, pau) > MAX_FAT12)
  {
    hide Times, Quotient, Remainder;
    var n0 := Quotient(szVol, pau);
    QuotientBounds(szVol, pau);
    OverheadSmall(Fat16, n0, ss);
    var u := Overhead(Fat16, n0, ss);
    hide Overhead, Quotient, AutoUnit, Judge;
    MulMono(1, pau, n0);
    MulMono(4086, n0, pau);
    QuotientMono(szVol - u, szVol, pau);
    if n0 >= 8192 {
      MulMono(8192, n0, pau);
      AtLeast(szVol - u, 4086, pau);
    }
  }

  lemma Automatic16(szVol: nat, ss: nat, fat32: bool)
    requires ValidSectorSize(ss) && 128 <= szVol < TWO32
    ensures Settles(Fat16, 0, szVol, ss, fat32) <==> fat32 || szVol <= Largest16(ss)
  {
    hide Settles;
    if szVol < 0x1_0000 { SmallVolume(szVol, ss, fat32); }
    else if szVol < 0x20_0000 { MediumVolume(szVol, ss, fat32); }
    else { LargeVolume(szVol, ss, fat32); }
  }

  /** FAT12, or FAT16 if that gives enough clusters. */
  lemma SmallVolume(szVol: nat, ss: nat, fat32: bool)
    requires ValidSectorSize(ss) && 128 <= szVol < 0x1_0000
    ensures Settles(Fat16, 0, szVol, ss, fat32)
  {
    var pau := AutoUnit(Fat16, szVol);
    SmallUnit(szVol);
    hide Settles, Overhead, AutoUnit, TrialOf, Quotient;
    var n0 := Quotient(szVol, pau);
    QuotientBounds(szVol, pau);
    SettlesIs(Fat16, 0, szVol, ss, fat32);
    if n0 <= MAX_FAT12 {
      Judged12(0, pau, szVol, ss, fat32);
    } else {
      SmallFat16(pau, szVol, ss, fat32);
    }
  }

  /** With too few clusters for FAT16 the trial is repeated with clusters twice the size. */
  lemma SmallFat16(pau: nat, szVol: nat, ss: nat, fat32: bool)
    requires ValidSectorSize(ss) && 128 <= szVol < 0x1_0000 && pau == AutoUnit(Fat16, szVol) <= 4
    requires MAX_FAT12 < Quotient(szVol, pau) <= MAX_FAT16
    ensures Settles(Fat16, 0, szVol, ss, fat32)
  {
    hide Settles, Overhead, AutoUnit, TrialOf, Quotient;
    SettlesIs(Fat16, 0, szVol, ss, fat32);
    Judged16(0, pau, szVol, ss, fat32);
    var x: nat := szVol - Overhead(Fat16, Quotient(szVol, pau), ss);
    if Quotient(x, pau) <= MAX_FAT12 {
      JustTooFew(szVol, x, pau);
      assert 2 * pau <= 8;
      QuotientBounds(szVol, pau);
      Judged12(2 * pau, 2 * pau, szVol, ss, fat32);
      SettlesIs(Fat16, 2 * pau, szVol, ss, fat32);
    }
  }

  lemma SmallUnit(szVol: nat)
    requires szVol < 0x1_0000
    ensures 1 <= AutoUnit(Fat16, szVol) <= 4 && (AutoUnit(Fat16, szVol) > 1 ==> szVol >= 4096)
  {
  }

  lemma JustTooFew(szVol: nat, x: nat, pau: nat)
    requires 0 < pau && x + 4086 >= szVol && Quotient(x, pau) <= MAX_FAT12
    ensures Quotient(szVol, 2 * pau) <= MAX_FAT12
  {
    QuotientBounds(x, pau);
    hide Quotient;
    MulMono(Quotient(x, pau) + 1, 4086, pau);
    MulMono(1, pau, 4086);
    AtMost(szVol, 4086, 2 * pau);
  }

  /** FAT16, if need be with clusters twice the size. */
  lemma MediumVolume(szVol: nat, ss: nat, fat32: bool)
    requires ValidSectorSize(ss) && 0x1_0000 <= szVol < 0x20_0000
    ensures Settles(Fat16, 0, szVol, ss, fat32)
  {
    hide Times, Quotient, Remainder;
    var pau := AutoUnit(Fat16, szVol);
    assert (pau == 8 || pau == 16 || pau == 32) && 8192 * pau <= szVol < 0x1_0000 * pau;
    hide Settles, Overhead, AutoUnit, TrialOf, Quotient;
    AtLeast(szVol, 8192, pau);
    AtMost(szVol, 0x1_0000, pau);
    SettlesIs(Fat16, 0, szVol, ss, fat32);
    Judged16(0, pau, szVol, ss, fat32);
    var x: nat := szVol - Overhead(Fat16, Quotient(szVol, pau), ss);
    if Quotient(x, pau) > MAX_FAT16 {
      QuotientBounds(x, pau);
      MulMono(0xFFF6, Quotient(x, pau), pau);
      AtLeast(szVol, 8192, 2 * pau);
      AtMost(szVol, 0x8000, 2 * pau);
      Judged16(2 * pau, 2 * pau, szVol, ss, fat32);
      SettlesIs(Fat16, 2 * pau, szVol, ss, fat32);
    }
  }

  /** FAT16 with 64 sectors per cluster, then FAT32, or FAT16 with 128 if FAT32 is not allowed. */
  lemma LargeVolume(szVol: nat, ss: nat, fat32: bool)
    requires ValidSectorSize(ss) && 0x20_0000 <= szVol < TWO32
    ensures Settles(Fat16, 0, szVol, ss, fat32) <==> fat32 || szVol <= Largest16(ss)
  {
    hide Times, Quotient, Remainder;
    assert AutoUnit(Fat16, szVol) == 64;
    hide Settles, Overhead, AutoUnit, TrialOf, Quotient, Largest16, Smallest32;
    AtLeast(szVol, 0x8000, 64);
    AtMost(szVol, 0x400_0000, 64);
    SettlesIs(Fat16, 0, szVol, ss, fat32);
    Judged16(0, 64, szVol, ss, fat32);
    var x: nat := szVol - Overhead(Fat16, Quotient(szVol, 64), ss);
    QuotientBounds(szVol, 64);
    QuotientBounds(x, 64);
    LargestAtLeast(ss);
    if Quotient(x, 64) > MAX_FAT16 {
      if fat32 { Automatic32(szVol, ss, fat32); } else { Largest(szVol, ss); }
    }
  }

  lemma LargestAtLeast(ss: nat)
    requires ValidSectorSize(ss)
    ensures Largest16(ss) >= 128 * 0xFFF6
  {
  }

  /** The last resort of a FAT16 volume: 128 sectors per cluster. */
  lemma Largest(szVol: nat, ss: nat)
    requires ValidSectorSize(ss) && 0x20_0000 <= szVol < TWO32
    ensures Settles(Fat16, 128, szVol, ss, false) <==> szVol <= Largest16(ss)
  {
    Arithmetic();
    hide Times, Quotient, Remainder;
    hide Settles, TrialOf;
    AtLeast(szVol, 0x4000, 128);
    AtMost(szVol, 0x200_0000, 128);
    SettlesIs(Fat16, 128, szVol, ss, false);
    Judged16(128, 128, szVol, ss, false);
    var n0 := Quotient(szVol, 128);
    OverheadBounds(Fat16, n0, ss);
    hide Overhead;
    var u := Overhead(Fat16, n0, ss);
    assert Quotient(szVol - u, 128) <= MAX_FAT16 <==> szVol - u < 128 * 0xFFF6;
    LastFit(szVol, u, n0, ss);
  }

  lemma LastFit(szVol: nat, u: nat, n0: nat, ss: nat)
    requires ValidSectorSize(ss) && n0 == szVol / 128
    requires ss + 0x4000 + n0 * 2 + 4 <= u * ss < 2 * ss + 0x4000 + n0 * 2 + 4
    ensures szVol - u < 128 * 0xFFF6 <==> szVol <= Largest16(ss)
  {
    Arithmetic();
    hide Times, Quotient, Remainder;
  }
}
