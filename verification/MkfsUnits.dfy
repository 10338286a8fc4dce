/** Which cluster size `f_mkfs` settles on if the caller leaves it open. */
module MkfsUnits {
  import opened Arith
  import opened Geometry
  import opened MkfsLayout
  import opened MkfsSizes
  import opened Mount

  /** The table of cluster sizes by the volume's size in sectors. */
  lemma UnitRows(v: nat)
    ensures AutoUnit(Fat32, v) ==
      if v < 0x2_0000 then 1 else if v < 0x4_0000 then 2 else if v < 0x8_0000 then 4 else if v < 0x10_0000 then 8
      else if v < 0x20_0000 then 16 else if v < 0x40_0000 then 32 else 64
    ensures AutoUnit(Fat16, v) ==
      if v < 0x1000 then 1 else if v < 0x4000 then 2 else if v < 0x1_0000 then 4 else if v < 0x4_0000 then 8
      else if v < 0x10_0000 then 16 else if v < 0x20_0000 then 32 else 64
  {
    var n, m := v / 0x2_0000, v / 0x1000;
    assert n * 0x2_0000 <= v < (n + 1) * 0x2_0000 && m * 0x1000 <= v < (m + 1) * 0x1000;
  }

  /** Whether a trial is accepted does not depend on who chose the cluster size. */
  lemma AcceptIs(fmt: FsType, szVol: nat, ss: nat, fat32: bool)
    requires ss > 0
    ensures TrialOf(fmt, 0, szVol, ss, fat32) == Accept <==> TrialOf(fmt, AutoUnit(fmt, szVol), szVol, ss, false) == Accept
  {
    hide Overhead, Quotient, AutoUnit;
  }

  /** With a given cluster size a FAT32 trial is not repeated, and a FAT16 trial only as FAT32. */
  lemma GivenOnce(fmt: FsType, au: nat, szVol: nat, ss: nat, fat32: bool)
    requires ss > 0 && au > 0 && fmt != Fat12
    ensures TrialOf(fmt, au, szVol, ss, fat32).Retry? ==> fmt == Fat16 && fat32
  {
    hide Overhead, Quotient, AutoUnit;
  }

  lemma AcceptedFits(fmt: FsType, szVol: nat, ss: nat, fat32: bool)
    requires ValidSectorSize(ss) && szVol < TWO32 && fmt != Fat12
    ensures TrialOf(fmt, 0, szVol, ss, fat32) == Accept <==>
      var pau := AutoUnit(fmt, szVol);
      if fmt == Fat32 then Fits(Fat32, pau, szVol, ss) else Fits(Fat12, pau, szVol, ss) || Fits(Fat16, pau, szVol, ss)
  {
    hide TrialOf, Fits, AutoUnit;
    var pau := AutoUnit(fmt, szVol);
    AcceptIs(fmt, szVol, ss, fat32);
    GivenOnce(fmt, pau, szVol, ss, false);
    if fmt == Fat32 { Given32(pau, szVol, ss, false); } else { Given16(pau, szVol, ss, false); }
  }

  /** How a trial with an automatic cluster size is repeated. */
  lemma RepeatedWith(fmt: FsType, szVol: nat, ss: nat, fat32: bool)
    requires ss > 0 && fmt != Fat12 && TrialOf(fmt, 0, szVol, ss, fat32).Retry?
    ensures var v, pau := TrialOf(fmt, 0, szVol, ss, fat32), AutoUnit(fmt, szVol);
      if fmt == Fat32 then v == Retry(Fat32, pau / 2) && pau / 2 > 0
      else v == Retry(Fat16, 2 * pau) || (fat32 && pau == 64 && v == Retry(Fat32, 0))
  {
    hide Overhead, Quotient;
  }

  lemma Chosen32(szVol: nat, ss: nat, fat32: bool)
    requires ValidSectorSize(ss) && szVol < TWO32 && Settles(Fat32, 0, szVol, ss, fat32)
    ensures var pau := AutoUnit(Fat32, szVol);
      Chosen(Fat32, 0, szVol, ss, fat32) == (true, if Fits(Fat32, pau, szVol, ss) then pau else pau / 2)
  {
    hide TrialOf, Fits, AutoUnit;
    AcceptedFits(Fat32, szVol, ss, fat32);
    if TrialOf(Fat32, 0, szVol, ss, fat32).Retry? {
      RepeatedWith(Fat32, szVol, ss, fat32);
      GivenOnce(Fat32, AutoUnit(Fat32, szVol) / 2, szVol, ss, fat32);
    }
  }

  /** Clusters twice the size are enough where FAT32 is allowed, too. */
  lemma SecondTrial(szVol: nat, ss: nat, fat32: bool)
    requires ValidSectorSize(ss) && 128 <= szVol < TWO32
    requires TrialOf(Fat16, 0, szVol, ss, fat32) == Retry(Fat16, 2 * AutoUnit(Fat16, szVol))
    ensures !TrialOf(Fat16, 2 * AutoUnit(Fat16, szVol), szVol, ss, fat32).Retry?
  {
    var pau := AutoUnit(Fat16, szVol);
    UnitRows(szVol);
    hide TrialOf, AutoUnit, Quotient, Overhead;
    GivenOnce(Fat16, 2 * pau, szVol, ss, fat32);
    if fat32 && szVol >= 0x1_0000 {
      SecondLarge(pau, szVol, ss);
    } else if fat32 {
      SecondSmall(pau, szVol, ss);
    }
  }

  lemma SecondLarge(pau: nat, szVol: nat, ss: nat)
    requires ValidSectorSize(ss) && 0x1_0000 <= szVol < TWO32 && pau == AutoUnit(Fat16, szVol)
    requires TrialOf(Fat16, 0, szVol, ss, true) == Retry(Fat16, 2 * pau)
    ensures !TrialOf(Fat16, 2 * pau, szVol, ss, true).Retry?
  {
    UnitRows(szVol);
    hide TrialOf, AutoUnit, Quotient, Overhead;
    AtLeast(szVol, 8192, pau);
    if pau == 64 {
      AtMost(szVol, 0x400_0000, 64);
      Judged16(0, 64, szVol, ss, true);
    } else {
      AtLeast(szVol, 4096, 2 * pau);
      AtMost(szVol, 0x8000, 2 * pau);
      Judged16(2 * pau, 2 * pau, szVol, ss, true);
    }
  }

  lemma SecondSmall(pau: nat, szVol: nat, ss: nat)
    requires ValidSectorSize(ss) && 128 <= szVol < 0x1_0000 && pau == AutoUnit(Fat16, szVol)
    ensures !TrialOf(Fat16, 2 * pau, szVol, ss, true).Retry?
  {
    UnitRows(szVol);
    hide TrialOf, AutoUnit, Quotient, Overhead;
    AtMost(szVol, 0x8000, 2 * pau);
    if Quotient(szVol, 2 * pau) > MAX_FAT12 {
      Judged16(2 * pau, 2 * pau, szVol, ss, true);
    } else {
      TrialTwelve(2 * pau, szVol, ss);
    }
  }

  lemma TrialTwelve(au: nat, szVol: nat, ss: nat)
    requires ss > 0 && au > 0 && Quotient(szVol, au) <= MAX_FAT12
    ensures !TrialOf(Fat16, au, szVol, ss, true).Retry?
  {
    hide Overhead, Quotient;
  }

  /** The cluster size left to the engine: the table's, or half of it on FAT32 and twice of it
      on FAT12/16 if with the table's the volume does not fit its type. */
  lemma ChosenUnit(fat: bool, fat32: bool, szVol: nat, ss: nat)
    requires ValidSectorSize(ss) && 128 <= szVol < TWO32 && (fat || fat32)
    requires Settles(if fat then Fat16 else Fat32, 0, szVol, ss, fat32)
    ensures var c := Chosen(if fat then Fat16 else Fat32, 0, szVol, ss, fat32);
      var a, b := AutoUnit(Fat16, szVol), AutoUnit(Fat32, szVol);
      c.1 == if c.0 then (if Fits(Fat32, b, szVol, ss) then b else b / 2)
             else if Fits(Fat12, a, szVol, ss) || Fits(Fat16, a, szVol, ss) then a else 2 * a
  {
    hide TrialOf, Fits, AutoUnit;
    if !fat {
      Chosen32(szVol, ss, fat32);
    } else {
      var a := AutoUnit(Fat16, szVol);
      AcceptedFits(Fat16, szVol, ss, fat32);
      var v := TrialOf(Fat16, 0, szVol, ss, fat32);
      if v.Retry? {
        RepeatedWith(Fat16, szVol, ss, fat32);
        if v.fmt == Fat32 { Chosen32(szVol, ss, fat32); } else { SecondTrial(szVol, ss, fat32); }
      }
    }
  }
}
