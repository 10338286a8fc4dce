/** What the bytes of a medium say about the volume on it: the signature of a boot record, the
    partition table, the fields of a FAT boot record and the FSINFO record. */
module BootBytes {
  import opened Bytes
  import opened Geometry

  /** A boot sector of any kind. */
  predicate Signed(s: Sector)
  {
    |s| >= 512 && s[510] == 0x55 && s[511] == 0xAA
  }

  /** A FAT boot record: the signature, a jump instruction, and "FAT" or "FAT3" at the type
      string of FAT12/16 or of FAT32. */
  predicate FatRecord(s: Sector)
  {
    && Signed(s)
    && (s[0] == 0xE9 || (s[0] == 0xEB && s[2] == 0x90))
    && (s[54..57] == [0x46, 0x41, 0x54] || s[82..86] == [0x46, 0x41, 0x54, 0x33])
  }

  /** Partition i of the table in sector 0 is in use and starts, at b, with a FAT record. */
  predicate FatPartition(secs: seq<Sector>, i: nat, b: nat)
  {
    && i < 4 && |secs| > 0 && |secs[0]| >= 512 && secs[0][450 + 16 * i] != 0
    && 0 < b == LdDword(secs[0], 454 + 16 * i) && b < |secs| && FatRecord(secs[b])
  }

  /** Of the partitions from the i-th on, the k-th is the first with a FAT record. */
  ghost predicate FirstFat(secs: seq<Sector>, i: nat, k: nat, b: nat)
  {
    i <= k && FatPartition(secs, k, b) && forall j: nat, c: nat :: i <= j < k ==> !FatPartition(secs, j, c)
  }

  /** The volume starts at sector b: at 0, or else where the first FAT partition starts. */
  ghost predicate VolumeAt(secs: seq<Sector>, b: nat)
  {
    && b < |secs|
    && if FatRecord(secs[0]) then b == 0
       else Signed(secs[0]) && exists k: nat :: FirstFat(secs, 0, k, b)
  }

  function TotalSectors(s: Sector): nat
    requires |s| >= 512
  {
    if s[19] == 0 && s[20] == 0 then LdDword(s, 32) else LdWord(s, 19)
  }

  function FatSectors(s: Sector): nat
    requires |s| >= 512
  {
    if s[22] == 0 && s[23] == 0 then LdDword(s, 36) else LdWord(s, 22)
  }

  /** Reserved sectors, FATs and root directory, counted modulo 2^32. */
  function SystemArea(s: Sector, ss: nat): nat
    requires |s| >= 512 && ValidSectorSize(ss)
  {
    (LdWord(s, 14) + FatSectors(s) * s[16] as nat + LdWord(s, 17) * 32 / ss) % 0x1_0000_0000
  }

  /** Clusters of s[13] sectors behind the system area. */
  function Clusters(s: Sector, ss: nat): int
    requires |s| >= 512 && ValidSectorSize(ss)
  {
    if s[13] == 0 || TotalSectors(s) < SystemArea(s, ss) then 0 else (TotalSectors(s) - SystemArea(s, ss)) / s[13] as nat
  }

  /** The fields on their own: sector size, cluster size, FATs, reserved sectors, and a root
      directory of whole sectors. */
  predicate GoodFields(s: Sector, ss: nat)
  {
    && |s| >= 512 && ValidSectorSize(ss)
    && LdWord(s, 11) == ss && s[13] in [1, 2, 4, 8, 16, 32, 64, 128] && LdWord(s, 14) != 0
    && (s[16] == 1 || s[16] == 2) && LdWord(s, 17) * 32 % ss == 0
  }

  /** A FAT record that describes a volume: at least one cluster, a root directory of the kind
      the cluster count asks for, and a FAT with room for an entry of 12, 16 or 32 bits for
      each cluster and two more. The FAT32 size is counted modulo 2^32. */
  predicate GoodRecord(s: Sector, ss: nat)
  {
    && GoodFields(s, ss)
    && var n := Clusters(s, ss);
       && n > 0 && (LdWord(s, 17) == 0 <==> n > 0xFFF5)
       && (n <= 0xFF5 ==> 3 * (n + 2) <= 2 * (FatSectors(s) * ss))
       && (0xFF5 < n <= 0xFFF5 ==> 2 * (n + 2) <= FatSectors(s) * ss)
       && (n > 0xFFF5 ==> LdWord(s, 42) == 0 && ((n + 2) * 4 % 0x1_0000_0000 + ss - 1) % 0x1_0000_0000 / ss <= FatSectors(s))
  }

  /** The layout a record describes at sector b, places counted modulo 2^32. */
  predicate LaysOut(s: Sector, ss: nat, b: nat, g: Geo)
  {
    && |s| >= 512 && ValidSectorSize(ss)
    && var n := Clusters(s, ss);
    && g.fsType == (if n <= 0xFF5 then Fat12 else if n <= 0xFFF5 then Fat16 else Fat32)
    && g.nFats == s[16] as nat && g.csize == s[13] as nat && g.ss == ss && g.nRootdir == LdWord(s, 17)
    && g.nFatent == (n + 2) % 0x1_0000_0000 && g.fsize == FatSectors(s) && g.volbase == b
    && g.fatbase == (b + LdWord(s, 14)) % 0x1_0000_0000
    && g.database == (b + SystemArea(s, ss)) % 0x1_0000_0000
    && g.dirbase == if n > 0xFFF5 then LdDword(s, 44) else (b + LdWord(s, 14) + FatSectors(s) * s[16] as nat) % 0x1_0000_0000
  }

  /** An FSINFO record: "RRaA" in front, "rrAa" at 484 and the boot signature. */
  predicate InfoSigned(s: Sector)
  {
    Signed(s) && s[0..4] == [0x52, 0x52, 0x61, 0x41] && s[484..488] == [0x72, 0x72, 0x41, 0x61]
  }
}
