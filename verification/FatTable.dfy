/** `get_fat` and `put_fat`: FAT entries through the window. */
module FatTable {
  import opened Arith
  import opened Bytes
  import opened FatEntries
  import opened Geometry
  import opened Window

  const DISK_ERROR: nat := 0xFFFF_FFFF

  lemma ImageShaped(fs: FatFs)
    requires fs.Valid()
    ensures Shaped(fs.geo, fs.Img()) && |fs.Img()| == fs.disk.size
  {
    hide Geo.Sound, Journal, Traced, FatOf, Agree;
  }

  lemma VolumeBounds(fs: FatFs)
    requires fs.Valid()
    ensures fs.geo.Sound() && fs.geo.FsInfoApart() && fs.geo.End() <= fs.disk.size
    ensures 3 <= fs.geo.nFatent <= 0x0FFF_FFF7
  {
    Bounds(fs.geo);
  }

  /** The byte at offset i of a loaded FAT sector. */
  lemma LoadedByte(g: Geo, img: Image, k: nat, win: seq<byte>)
    requires Shaped(g, img) && k < g.FatBytes()
    requires ByteSector(g, k) < |img| && win == img[ByteSector(g, k)]
    ensures ByteOffset(g, k) < |win| && win[ByteOffset(g, k)] == FatByte(g, img, k)
  {
    BytePlace(g, k);
    hide Geo.Sound;
  }

  /** `get_fat`: 1 for a cluster number out of range, 0xFFFFFFFF on a disk error. */
  method GetFat(fs: FatFs, clst: nat) returns (val: nat)
    requires fs.Valid()
    modifies fs`wflag, fs`winsect, fs`marks, fs.win, fs.disk
    ensures fs.Valid() && fs.Img() == old(fs.Img()) && fs.Grows()
    ensures val == DISK_ERROR ==> fs.disk.mayFail
    ensures val != DISK_ERROR ==> val == if fs.geo.ValidCluster(clst) then fs.Fat()[clst] else 1
    ensures fs.winsect == old(fs.winsect) || fs.winsect == NO_SECTOR || fs.geo.InFat(fs.winsect)
    ensures old(fs.Mirrored()) && !fs.disk.mayFail ==> fs.Mirrored()
  {
    hide Geo.Sound, Journal, Traced, Agree, Blank, FatFs.Journaled, Overlay;
    if clst < 2 || clst >= fs.geo.nFatent {
      val := 1;
    } else {
      match fs.geo.fsType {
        case Fat12 => val := GetFat12(fs, clst);
        case Fat16 => val := GetFat16(fs, clst);
        case Fat32 => val := GetFat32(fs, clst);
      }
    }
  }

  method GetFat12(fs: FatFs, clst: nat) returns (val: nat)
    requires fs.Valid() && fs.geo.fsType == Fat12 && fs.geo.ValidCluster(clst)
    modifies fs`wflag, fs`winsect, fs`marks, fs.win, fs.disk
    ensures fs.Valid() && fs.Img() == old(fs.Img()) && fs.Grows()
    ensures val == DISK_ERROR ==> fs.disk.mayFail
    ensures val != DISK_ERROR ==> val == Entry(fs.geo, fs.Img(), clst)
    ensures fs.winsect == old(fs.winsect) || fs.winsect == NO_SECTOR || fs.geo.InFat(fs.winsect)
    ensures old(fs.Mirrored()) && !fs.disk.mayFail ==> fs.Mirrored()
  {
    hide Geo.Sound, Journal, Traced, Agree, Blank, FatFs.Journaled, Geo.FatBytes, Shaped, Overlay;
    val := DISK_ERROR;
    ImageShaped(fs);
    var g := fs.geo;
    var bc := clst + clst / 2;
    var res := LoadFat12(fs, clst, bc);
    if res == Ok {
      var wc := fs.win[bc % g.ss] as int;
      bc := bc + 1;
      res := LoadFat12(fs, clst, bc);
      if res == Ok {
        wc := wc + fs.win[bc % g.ss] as int * 0x100;
        val := if clst % 2 == 1 then wc / 0x10 else wc % 0x1000;
      }
    }
  }

  /** The FAT sector of a byte of a 12-bit entry is loaded. */
  method LoadFat12(fs: FatFs, clst: nat, bc: nat) returns (res: FResult)
    requires fs.Valid() && fs.geo.fsType == Fat12 && fs.geo.ValidCluster(clst)
    requires clst + clst / 2 <= bc <= clst + clst / 2 + 1
    modifies fs`wflag, fs`winsect, fs`marks, fs.win, fs.disk
    ensures fs.Valid() && fs.Img() == old(fs.Img()) && fs.Grows()
    ensures res == Ok || (res == DiskErr && fs.disk.mayFail)
    ensures fs.geo.ss > 0 && bc < fs.geo.FatBytes()
    ensures res == Ok ==>
      && bc % fs.geo.ss < fs.win.Length && fs.win[bc % fs.geo.ss] == FatByte(fs.geo, fs.Img(), bc)
      && fs.winsect == ByteSector(fs.geo, bc) < fs.disk.size
      && bc % fs.geo.ss == ByteOffset(fs.geo, bc) < fs.geo.ss && !fs.geo.Shadow(fs.winsect)
      && fs.winsect < |fs.Img()| && fs.win[..] == fs.Img()[fs.winsect]
    ensures fs.winsect == old(fs.winsect) || fs.winsect == NO_SECTOR || fs.geo.InFat(fs.winsect)
    ensures old(fs.Mirrored()) && !fs.disk.mayFail ==> fs.Mirrored()
  {
    hide Geo.Sound, Journal, Traced, Agree, Blank, FatFs.Journaled, Geo.FatBytes, Shaped, Overlay;
    ImageShaped(fs);
    Byte12(fs.geo, clst, bc);
    res := MoveWindow(fs, fs.geo.fatbase + bc / fs.geo.ss);
    if res == Ok {
      LoadedByte(fs.geo, fs.Img(), bc, fs.win[..]);
    }
  }

  method GetFat16(fs: FatFs, clst: nat) returns (val: nat)
    requires fs.Valid() && fs.geo.fsType == Fat16 && fs.geo.ValidCluster(clst)
    modifies fs`wflag, fs`winsect, fs`marks, fs.win, fs.disk
    ensures fs.Valid() && fs.Img() == old(fs.Img()) && fs.Grows()
    ensures val == DISK_ERROR ==> fs.disk.mayFail
    ensures val != DISK_ERROR ==> val == Entry(fs.geo, fs.Img(), clst)
    ensures fs.winsect == old(fs.winsect) || fs.winsect == NO_SECTOR || fs.geo.InFat(fs.winsect)
    ensures old(fs.Mirrored()) && !fs.disk.mayFail ==> fs.Mirrored()
  {
    hide Geo.Sound, Journal, Traced, Agree, Blank, FatFs.Journaled, Geo.FatBytes, Shaped, Overlay;
    val := DISK_ERROR;
    ImageShaped(fs);
    var g := fs.geo;
    WordPlace(g, clst);
    var res := MoveWindow(fs, g.fatbase + clst / (g.ss / 2));
    if res == Ok {
      LoadedWord(g, fs.Img(), clst, fs.win[..], clst * 2 % g.ss);
      val := LdWord(fs.win[..], clst * 2 % g.ss);
    }
  }

  method GetFat32(fs: FatFs, clst: nat) returns (val: nat)
    requires fs.Valid() && fs.geo.fsType == Fat32 && fs.geo.ValidCluster(clst)
    modifies fs`wflag, fs`winsect, fs`marks, fs.win, fs.disk
    ensures fs.Valid() && fs.Img() == old(fs.Img()) && fs.Grows()
    ensures val == DISK_ERROR ==> fs.disk.mayFail
    ensures val != DISK_ERROR ==> val == Entry(fs.geo, fs.Img(), clst)
    ensures fs.winsect == old(fs.winsect) || fs.winsect == NO_SECTOR || fs.geo.InFat(fs.winsect)
    ensures old(fs.Mirrored()) && !fs.disk.mayFail ==> fs.Mirrored()
  {
    hide Geo.Sound, Journal, Traced, Agree, Blank, FatFs.Journaled, Geo.FatBytes, Shaped, Overlay;
    val := DISK_ERROR;
    ImageShaped(fs);
    var g := fs.geo;
    DwordPlace(g, clst);
    var res := MoveWindow(fs, g.fatbase + clst / (g.ss / 4));
    if res == Ok {
      LoadedDword(g, fs.Img(), clst, fs.win[..], clst * 4 % g.ss);
      val := LdDword(fs.win[..], clst * 4 % g.ss) % 0x1000_0000;
    }
  }

  /** The two bytes of a 12-bit entry may lie in different sectors. */
  lemma Byte12(g: Geo, c: nat, k: nat)
    requires g.Sound() && g.FsInfoApart() && g.fsType == Fat12 && c < g.nFatent
    requires c + c / 2 <= k <= c + c / 2 + 1
    ensures g.ss > 0 && k < g.FatBytes()
    ensures g.fatbase + k / g.ss == ByteSector(g, k) < g.End()
    ensures k % g.ss == ByteOffset(g, k)
    ensures g.InFat(ByteSector(g, k)) && !g.Shadow(ByteSector(g, k))
  {
    Arithmetic();
    hide Times, Quotient, Remainder;
    BytePlace(g, k);
    Bounds(g);
  }

  /** A 16-bit entry lies in one sector. */
  lemma WordPlace(g: Geo, c: nat)
    requires g.Sound() && g.FsInfoApart() && g.fsType == Fat16 && c < g.nFatent
    ensures g.ss > 0 && g.ss / 2 > 0
    ensures g.fatbase + c / (g.ss / 2) == ByteSector(g, 2 * c) == ByteSector(g, 2 * c + 1)
    ensures c * 2 % g.ss == ByteOffset(g, 2 * c) && c * 2 % g.ss + 1 == ByteOffset(g, 2 * c + 1)
    ensures g.InFat(ByteSector(g, 2 * c)) && !g.Shadow(ByteSector(g, 2 * c)) && ByteSector(g, 2 * c) < g.End()
    ensures c * 2 % g.ss + 1 < g.ss && 2 * c + 1 < g.FatBytes()
  {
    Arithmetic();
    hide Times, Quotient, Remainder;
    BytePlace(g, 2 * c);
    Bounds(g);
    AlignedPair(g.ss, c);
    hide Geo.Sound;
  }

  lemma LoadedWord(g: Geo, img: Image, c: nat, win: seq<byte>, at: nat)
    requires Shaped(g, img) && g.fsType == Fat16 && c < g.nFatent
    requires ByteSector(g, 2 * c) < |img| && win == img[ByteSector(g, 2 * c)]
    requires at == ByteOffset(g, 2 * c) && at + 1 < |win|
    ensures LdWord(win, at) == Entry(g, img, c)
  {
    WordPlace(g, c);
    hide Geo.Sound;
    hide ByteSector, ByteOffset, Shaped, FatByte;
    LoadedByte(g, img, 2 * c, win);
    LoadedByte(g, img, 2 * c + 1, win);
  }

  /** An item of w bytes at index c of a table of sectors holding h items each. */
  lemma AlignedItem(ss: nat, h: nat, w: nat, c: nat, i: nat)
    requires h > 0 && ss == w * h && i < w
    ensures (w * c + i) / ss == c / h && (w * c + i) % ss == w * (c % h) + i < ss
  {
    var q, r := c / h, c % h;
    assert w * c + i == q * ss + (w * r + i) by {
      assert c == q * h + r;
      assert w * c == w * (q * h) + w * r;
      assert w * (q * h) == q * ss;
    }
    MulMono(r + 1, h, w);
    assert (r + 1) * w == w * r + w;
    DivUnique(w * c + i, ss, q, w * r + i);
  }

  lemma AlignedPair(ss: nat, c: nat)
    requires ValidSectorSize(ss)
    ensures ss / 2 > 0 && c / (ss / 2) == 2 * c / ss == (2 * c + 1) / ss
    ensures (2 * c + 1) % ss == 2 * c % ss + 1 < ss
  {
    AlignedItem(ss, ss / 2, 2, c, 0);
    AlignedItem(ss, ss / 2, 2, c, 1);
  }

  lemma AlignedQuad(ss: nat, c: nat)
    requires ValidSectorSize(ss)
    ensures ss / 4 > 0 && c / (ss / 4) == 4 * c / ss == (4 * c + 1) / ss == (4 * c + 2) / ss == (4 * c + 3) / ss
    ensures (4 * c + 1) % ss == 4 * c % ss + 1
    ensures (4 * c + 2) % ss == 4 * c % ss + 2
    ensures (4 * c + 3) % ss == 4 * c % ss + 3 < ss
  {
    hide Times, Quotient, Remainder;
    AlignedItem(ss, ss / 4, 4, c, 0);
    AlignedItem(ss, ss / 4, 4, c, 1);
    AlignedItem(ss, ss / 4, 4, c, 2);
    AlignedItem(ss, ss / 4, 4, c, 3);
  }

  /** A 32-bit entry lies in one sector. */
  lemma DwordPlace(g: Geo, c: nat)
    requires g.Sound() && g.FsInfoApart() && g.fsType == Fat32 && c < g.nFatent
    ensures g.ss > 0 && g.ss / 4 > 0
    ensures g.fatbase + c / (g.ss / 4) == ByteSector(g, 4 * c)
    ensures ByteSector(g, 4 * c) == ByteSector(g, 4 * c + 1) == ByteSector(g, 4 * c + 2) == ByteSector(g, 4 * c + 3)
    ensures c * 4 % g.ss == ByteOffset(g, 4 * c) && c * 4 % g.ss + 1 == ByteOffset(g, 4 * c + 1)
    ensures c * 4 % g.ss + 2 == ByteOffset(g, 4 * c + 2) && c * 4 % g.ss + 3 == ByteOffset(g, 4 * c + 3)
    ensures g.InFat(ByteSector(g, 4 * c)) && !g.Shadow(ByteSector(g, 4 * c)) && ByteSector(g, 4 * c) < g.End()
    ensures c * 4 % g.ss + 3 < g.ss && 4 * c + 3 < g.FatBytes()
  {
    Arithmetic();
    hide Times, Quotient, Remainder;
    BytePlace(g, 4 * c);
    Bounds(g);
    AlignedQuad(g.ss, c);
    hide Geo.Sound;
  }

  lemma LoadedDword(g: Geo, img: Image, c: nat, win: seq<byte>, at: nat)
    requires Shaped(g, img) && g.fsType == Fat32 && c < g.nFatent
    requires ByteSector(g, 4 * c) < |img| && win == img[ByteSector(g, 4 * c)]
    requires at == ByteOffset(g, 4 * c) && at + 3 < |win|
    ensures LdDword(win, at) == Raw32(g, img, c)
  {
    DwordPlace(g, c);
    hide Geo.Sound;
    hide ByteSector, ByteOffset, Shaped, FatByte;
    LoadedByte(g, img, 4 * c, win);
    LoadedByte(g, img, 4 * c + 1, win);
    LoadedByte(g, img, 4 * c + 2, win);
    LoadedByte(g, img, 4 * c + 3, win);
  }

  /** A 12-bit entry by the bytes of its FAT sectors: an even cluster has the first byte and
      the low half of the second one, an odd cluster the high half of the first and the second. */
  lemma EntryBytes12(g: Geo, img: Image, c: nat)
    requires Shaped(g, img) && c < g.nFatent && g.fsType == Fat12
    ensures g.ss > 0
    ensures var s, t := g.fatbase + (c + c / 2) / g.ss, g.fatbase + (c + c / 2 + 1) / g.ss;
      && s < |img| && t < |img| && |img[s]| == |img[t]| == g.ss
      && var k := c + c / 2;
      var a, b := img[s][k % g.ss] as nat, img[t][(k + 1) % g.ss] as nat;
      Entry(g, img, c) == if c % 2 == 0 then a + b % 0x10 * 0x100 else a / 0x10 + b * 0x10
  {
    hide Geo.Sound, Geo.FsInfoApart, Geo.Shadow, Geo.InFat, Geo.FatBytes, Geo.End, Entry, ByteSector, ByteOffset, FatByte;
    var k := c + c / 2;
    Byte12(g, c, k);
    Byte12(g, c, k + 1);
    Nibbles12(g, img, c);
  }

  lemma Nibbles12(g: Geo, img: Image, c: nat)
    requires Shaped(g, img) && c < g.nFatent && g.fsType == Fat12
    ensures var k := c + c / 2;
      var s, i, t, j := ByteSector(g, k), ByteOffset(g, k), ByteSector(g, k + 1), ByteOffset(g, k + 1);
      && s < |img| && i < |img[s]| && t < |img| && j < |img[t]|
      && Entry(g, img, c) == if c % 2 == 0 then img[s][i] as nat + img[t][j] as nat % 0x10 * 0x100 else img[s][i] as nat / 0x10 + img[t][j] as nat * 0x10
  {
    hide Geo.Sound, Geo.FsInfoApart, Geo.FatBytes, Geo.End, ByteSector, ByteOffset, Entry, FatByte, Geo.Shadow, Geo.InFat;
    var k := c + c / 2;
    Byte12(g, c, k);
    Byte12(g, c, k + 1);
    LoadedByte(g, img, k, img[ByteSector(g, k)]);
    LoadedByte(g, img, k + 1, img[ByteSector(g, k + 1)]);
    NibblesOf(g, img, c);
  }

  lemma NibblesOf(g: Geo, img: Image, c: nat)
    requires g.fsType == Fat12
    ensures var a, b := FatByte(g, img, c + c / 2) as nat, FatByte(g, img, c + c / 2 + 1) as nat;
      Entry(g, img, c) == if c % 2 == 0 then a + b % 0x10 * 0x100 else a / 0x10 + b * 0x10
  {
    hide FatByte;
    NibbleSums(FatByte(g, img, c + c / 2), FatByte(g, img, c + c / 2 + 1));
  }

  lemma NibbleSums(a: byte, b: byte)
    ensures Pair(a, b) / 0x10 == a as nat / 0x10 + b as nat * 0x10
    ensures Pair(a, b) % 0x1000 == a as nat + b as nat % 0x10 * 0x100
  {
    assert b == b / 0x10 * 0x10 + b % 0x10;
    assert Pair(a, b) == a as nat + b as nat % 0x10 * 0x100 + b as nat / 0x10 * 0x1000;
  }

  /** A 16-bit entry by its two bytes. */
  lemma EntryBytes16(g: Geo, img: Image, c: nat)
    requires Shaped(g, img) && c < g.nFatent && g.fsType == Fat16
    ensures var s, i := g.fatbase + c * 2 / g.ss, c * 2 % g.ss;
      s < |img| && i + 1 < |img[s]| && Entry(g, img, c) == img[s][i] as nat + img[s][i + 1] as nat * 0x100
  {
    hide Geo.Sound, Geo.FsInfoApart, Geo.FatBytes, Geo.End, Entry, ByteSector, ByteOffset;
    SoundSize(g);
    AlignedPair(g.ss, c);
    WordPlace(g, c);
    LoadedWord(g, img, c, img[ByteSector(g, 2 * c)], ByteOffset(g, 2 * c));
    hide Geo.Shadow;
  }

  /** A 32-bit entry by its four bytes; the top four bits are not part of it. */
  lemma EntryBytes32(g: Geo, img: Image, c: nat)
    requires Shaped(g, img) && c < g.nFatent && g.fsType == Fat32
    ensures var s, i := g.fatbase + c * 4 / g.ss, c * 4 % g.ss;
      && s < |img| && i + 3 < |img[s]|
      && Entry(g, img, c) == img[s][i] as nat + img[s][i + 1] as nat * 0x100 + img[s][i + 2] as nat * 0x1_0000
                             + img[s][i + 3] as nat % 0x10 * 0x100_0000
  {
    hide Geo.Sound, Geo.FsInfoApart, Geo.FatBytes, Geo.End, ByteSector, ByteOffset, Raw32, LdDword;
    SoundSize(g);
    AlignedQuad(g.ss, c);
    DwordPlace(g, c);
    var sec, at := img[ByteSector(g, 4 * c)], ByteOffset(g, 4 * c);
    LoadedDword(g, img, c, sec, at);
    hide LdWord, Geo.Shadow;
    LowBits(sec, at);
  }

  lemma LowBits(sec: seq<byte>, at: nat)
    requires at + 3 < |sec|
    ensures LdDword(sec, at) % 0x1000_0000 ==
      sec[at] as nat + sec[at + 1] as nat * 0x100 + sec[at + 2] as nat * 0x1_0000 + sec[at + 3] as nat % 0x10 * 0x100_0000
  {
    LittleEndian(sec, at);
    var n, d := sec[at] as nat + sec[at + 1] as nat * 0x100 + sec[at + 2] as nat * 0x1_0000, sec[at + 3] as nat;
    assert d == d / 0x10 * 0x10 + d % 0x10;
    assert n + d * 0x100_0000 == n + d % 0x10 * 0x100_0000 + d / 0x10 * 0x1000_0000;
  }

  lemma SoundSize(g: Geo)
    requires g.Sound()
    ensures ValidSectorSize(g.ss) && g.ss > 0
  {
  }

  /** A byte stored in the loaded sector is that byte of the FAT. */
  lemma StoredByte(g: Geo, img: Image, k: nat, b: byte, win: seq<byte>)
    requires Shaped(g, img) && k < g.FatBytes()
    requires ByteSector(g, k) < |img| && img[ByteSector(g, k)] == win && ByteOffset(g, k) < |win|
    ensures SetFatByte(g, img, k, b) == img[ByteSector(g, k) := win[ByteOffset(g, k) := b]]
  {
  }

  /** Store one byte of a FAT12 entry in the loaded sector; fats are the FATs recorded
      afterwards. */
  method PokeFat12(fs: FatFs, k: nat, i: nat, b: byte, ghost fats: seq<seq<nat>>)
    requires fs.Valid() && fs.geo.fsType == Fat12 && k < fs.geo.FatBytes()
    requires fs.winsect == ByteSector(fs.geo, k) < fs.disk.size && i == ByteOffset(fs.geo, k) < fs.geo.ss && !fs.geo.Shadow(fs.winsect)
    requires |fats| > 0 && fats[|fats| - 1] == FatOf(fs.geo, SetFatByte(fs.geo, fs.Img(), k, b))
    requires forall j :: 0 <= j < |fs.log| ==> Recorded(fs.geo, fats, FatOf(fs.geo, fs.log[j]))
    modifies fs`wflag, fs`log, fs`fats, fs.win
    ensures fs.Valid() && fs.Img() == SetFatByte(fs.geo, old(fs.Img()), k, b)
    ensures fs.fats == fats && fs.log == old(fs.log) + [fs.Img()]
    ensures old(fs.Mirrored()) ==> fs.Mirrored()
  {
    hide Geo.Sound, Journal, Agree, Geo.FatBytes, FatOf, ByteSector, ByteOffset, SetFatByte, Recorded;
    ImageShaped(fs);
    ghost var secs, img, before := fs.disk.sectors, fs.Img(), fs.win[..];
    BlankAt(fs.geo, secs, fs.winsect);
    StoredByte(fs.geo, img, k, b, before);
    fs.win[i] := b;
    assert fs.win[..] == before[i := b];
    EditedIs(fs.geo, secs, fs.wflag, fs.winsect, before, fs.win[..]);
    hide Blank, Overlay, Shaped;
    fs.fats := fats;
    Touch(fs);
  }

  /** A 16-bit store in the loaded sector sets two FAT bytes. */
  lemma StoredWord(g: Geo, img: Image, k: nat, v: nat, win: seq<byte>, at: nat)
    requires Shaped(g, img) && k + 1 < g.FatBytes()
    requires ByteSector(g, k) == ByteSector(g, k + 1) < |img| && img[ByteSector(g, k)] == win
    requires at == ByteOffset(g, k) && ByteOffset(g, k + 1) == at + 1 < |win|
    ensures SetPair(g, img, k, v) == img[ByteSector(g, k) := StWord(win, at, v)]
  {
    var one := SetFatByte(g, img, k, Low(v));
    StoredByte(g, img, k, Low(v), win);
    SetGet(g, img, k, Low(v));
    StoredByte(g, one, k + 1, Low(v / 0x100), win[at := Low(v)]);
    hide Geo.Sound, ByteSector, ByteOffset, SetFatByte, FatByte, Shaped, OnlyFat;
  }

  /** A 32-bit store in the loaded sector sets four FAT bytes. */
  lemma StoredDword(g: Geo, img: Image, c: nat, v: nat, win: seq<byte>, at: nat)
    requires Shaped(g, img) && g.fsType == Fat32 && c < g.nFatent
    requires ByteSector(g, 4 * c) < |img| && img[ByteSector(g, 4 * c)] == win
    requires at == ByteOffset(g, 4 * c) && at + 3 < |win|
    ensures SetPair(g, SetPair(g, img, 4 * c, v), 4 * c + 2, v / 0x1_0000)
      == img[ByteSector(g, 4 * c) := StDword(win, at, v)]
  {
    hide Geo.Sound, ByteSector, ByteOffset, SetPair, Geo.FatBytes, OnlyFat, StWord, StDword, FatByte, SetFatByte, Shaped;
    ShapedGeo(g, img);
    DwordPlace(g, c);
    var s, one, half := ByteSector(g, 4 * c), SetPair(g, img, 4 * c, v), StWord(win, at, v);
    StoredWord(g, img, 4 * c, v, win, at);
    SetPairGet(g, img, 4 * c, v);
    assert one == img[s := half] && one[s] == half;
    StoredWord(g, one, 4 * c + 2, v / 0x1_0000, half, at + 2);
    StDwordSplit(win, at, v);
    TwiceStored(img, s, half, StDword(win, at, v));
  }

  lemma ShapedGeo(g: Geo, img: Image)
    requires Shaped(g, img)
    ensures g.Sound() && g.FsInfoApart()
  {
  }

  lemma TwiceStored(img: Image, s: nat, x: Sector, y: Sector)
    requires s < |img|
    ensures img[s := x][s := y] == img[s := y]
  {
  }

  lemma StDwordSplit(s: seq<byte>, i: nat, v: nat)
    requires i + 3 < |s|
    ensures StWord(StWord(s, i, v), i + 2, v / 0x1_0000) == StDword(s, i, v)
  {
    DivDiv(v, 0x100, 0x100);
  }

  method PutFat12(fs: FatFs, clst: nat, val: nat) returns (res: FResult)
    requires fs.Valid() && fs.geo.fsType == Fat12 && fs.geo.ValidCluster(clst)
    modifies fs`wflag, fs`winsect, fs`marks, fs`log, fs`fats, fs.win, fs.disk
    ensures fs.Valid() && fs.Grows()
    ensures res == Ok || (res == DiskErr && fs.disk.mayFail)
    ensures res == Ok ==> fs.Img() == PutEntry(fs.geo, old(fs.Img()), clst, val)
    ensures res == Ok ==> fs.fats == old(fs.fats) + [fs.Fat()]
    ensures res == DiskErr ==>
      || (fs.fats == old(fs.fats) && fs.Img() == old(fs.Img()))
      || (Straddles(fs.geo, clst) && fs.Img() == HalfPut12(fs.geo, old(fs.Img()), clst, val)
          && fs.fats == old(fs.fats) + [HalfPut(old(fs.Fat()), clst, val)])
    ensures fs.winsect == old(fs.winsect) || fs.winsect == NO_SECTOR || fs.geo.InFat(fs.winsect)
    ensures old(fs.Mirrored()) && !fs.disk.mayFail ==> fs.Mirrored()
  {
    hide Geo.Sound, Journal, Agree, Geo.FatBytes, FatOf, Overlay, Blank, SetFatByte, OnlyFat, Traced, Shaped, First12, Second12, ByteSector, ByteOffset, FatByte;
    var bc := clst + clst / 2;
    res := LoadFat12(fs, clst, bc);
    if res != Ok { return; }
    var i := bc % fs.geo.ss;
    if i + 1 < fs.geo.ss {
      PutTogether12(fs, clst, i, val);
    } else {
      res := PutApart12(fs, clst, i, val);
    }
  }

  /** The byte after an offset, in the same sector or first in the next. */
  lemma NextByte(g: Geo, k: nat)
    requires ValidSectorSize(g.ss)
    ensures ByteOffset(g, k) + 1 < g.ss ==> ByteSector(g, k + 1) == ByteSector(g, k) && ByteOffset(g, k + 1) == ByteOffset(g, k) + 1
    ensures ByteOffset(g, k) + 1 == g.ss ==> ByteSector(g, k + 1) != ByteSector(g, k)
  {
    Arithmetic();
    hide Times, Quotient, Remainder;
    var q, r := k / g.ss, k % g.ss;
    if r + 1 < g.ss { DivUnique(k + 1, g.ss, q, r + 1); } else { DivUnique(k + 1, g.ss, q + 1, 0); }
  }

  /** Both bytes stored in one sector. */
  lemma StoredPair12(g: Geo, img: Image, c: nat, v: nat, win: seq<byte>, at: nat)
    requires Shaped(g, img) && g.fsType == Fat12 && c < g.nFatent
    requires ByteSector(g, c + c / 2) < |img| && img[ByteSector(g, c + c / 2)] == win
    requires at == ByteOffset(g, c + c / 2) && at + 1 < g.ss
    ensures at + 1 < |win|
    ensures PutEntry(g, img, c, v) ==
      img[ByteSector(g, c + c / 2) := win[at := First12(c, win[at], v)][at + 1 := Second12(c, win[at + 1], v)]]
  {
    hide Times, Quotient, Remainder;
    var k := c + c / 2;
    assert k + 1 < g.FatBytes() && ValidSectorSize(g.ss);
    hide Geo.Sound, Geo.FatBytes, First12, Second12;
    NextByte(g, k);
    LoadedByte(g, img, k, win);
    LoadedByte(g, img, k + 1, win);
    hide ByteSector, ByteOffset;
    var half := HalfPut12(g, img, c, v);
    StoredByte(g, img, k, First12(c, win[at], v), win);
    SetGet(g, img, k, First12(c, win[at], v));
    StoredByte(g, half, k + 1, Second12(c, win[at + 1], v), win[at := First12(c, win[at], v)]);
    hide SetFatByte, FatByte, Shaped, OnlyFat;
  }

  lemma Apart12(g: Geo, c: nat)
    requires g.Sound() && g.fsType == Fat12 && g.ValidCluster(c) && ByteOffset(g, c + c / 2) == g.ss - 1
    ensures Straddles(g, c) && c + c / 2 + 1 < g.FatBytes()
  {
    NextByte(g, c + c / 2);
  }

  /** Once the entry is complete, the torn FAT is half way from the old one. */
  lemma LogRecorded(g: Geo, log: seq<Image>, fats: seq<seq<nat>>, done: seq<seq<nat>>, c: nat, v: nat)
    requires g.fsType == Fat12 && g.ValidCluster(c) && Straddles(g, c) && 0 < |fats| < |done| && fats <= done
    requires c < |fats[|fats| - 1]| && (forall j :: 0 <= j < |log| ==> Recorded(g, fats, FatOf(g, log[j])))
    ensures forall j :: 0 <= j < |log| ==> Recorded(g, done, FatOf(g, log[j]))
    ensures Recorded(g, done, HalfPut(fats[|fats| - 1], c, v))
  {
    hide Straddles, FatOf, HalfPut;
    assert TornBy(g, done[|fats| - 1], HalfPut(fats[|fats| - 1], c, v), c, v);
    hide Recorded;
    forall j | 0 <= j < |log| ensures Recorded(g, done, FatOf(g, log[j])) { StillRecorded(g, fats, done, FatOf(g, log[j])); }
  }

  /** Both bytes of the entry lie in the loaded sector, so the window stays where it is. */
  method PutTogether12(fs: FatFs, clst: nat, i: nat, val: nat)
    requires fs.Valid() && fs.geo.fsType == Fat12 && fs.geo.ValidCluster(clst)
    requires fs.winsect == ByteSector(fs.geo, clst + clst / 2) < fs.disk.size && !fs.geo.Shadow(fs.winsect)
    requires i == ByteOffset(fs.geo, clst + clst / 2) && i + 1 < fs.geo.ss
    requires fs.winsect < |fs.Img()| && fs.win[..] == fs.Img()[fs.winsect]
    modifies fs`wflag, fs`log, fs`fats, fs.win
    ensures fs.Valid() && fs.Grows() && fs.Img() == PutEntry(fs.geo, old(fs.Img()), clst, val)
    ensures fs.fats == old(fs.fats) + [fs.Fat()]
    ensures old(fs.Mirrored()) ==> fs.Mirrored()
  {
    hide Geo.Sound, Journal, Agree, Geo.FatBytes, FatOf, Overlay, Blank, SetFatByte, OnlyFat, First12, Second12, ByteSector, ByteOffset, FatByte, PutEntry, Recorded;
    ImageShaped(fs);
    ghost var secs, img, before := fs.disk.sectors, fs.Img(), fs.win[..];
    BlankAt(fs.geo, secs, fs.winsect);
    StoredPair12(fs.geo, img, clst, val, before, i);
    fs.win[i] := First12(clst, fs.win[i], val);
    fs.win[i + 1] := Second12(clst, fs.win[i + 1], val);
    EditedIs(fs.geo, secs, fs.wflag, fs.winsect, before, fs.win[..]);
    CommitFat(fs);
  }

  /** The second byte is the first of the next sector. */
  method PutApart12(fs: FatFs, clst: nat, i: nat, val: nat) returns (res: FResult)
    requires fs.Valid() && fs.geo.fsType == Fat12 && fs.geo.ValidCluster(clst)
    requires fs.winsect == ByteSector(fs.geo, clst + clst / 2) < fs.disk.size && !fs.geo.Shadow(fs.winsect)
    requires i == ByteOffset(fs.geo, clst + clst / 2) == fs.geo.ss - 1
    requires fs.winsect < |fs.Img()| && fs.win[..] == fs.Img()[fs.winsect]
    modifies fs`wflag, fs`winsect, fs`marks, fs`log, fs`fats, fs.win, fs.disk
    ensures fs.Valid() && fs.Grows()
    ensures res == Ok || (res == DiskErr && fs.disk.mayFail)
    ensures res == Ok ==> fs.Img() == PutEntry(fs.geo, old(fs.Img()), clst, val)
    ensures res == Ok ==> fs.fats == old(fs.fats) + [fs.Fat()]
    ensures res == DiskErr ==>
      && Straddles(fs.geo, clst) && fs.Img() == HalfPut12(fs.geo, old(fs.Img()), clst, val)
      && fs.fats == old(fs.fats) + [HalfPut(old(fs.Fat()), clst, val)]
    ensures fs.winsect == old(fs.winsect) || fs.winsect == NO_SECTOR || fs.geo.InFat(fs.winsect)
    ensures old(fs.Mirrored()) && !fs.disk.mayFail ==> fs.Mirrored()
  {
    hide Geo.Sound, Journal, Agree, Geo.FatBytes, FatOf, Overlay, Blank, SetFatByte, OnlyFat, First12, Second12, ByteSector, ByteOffset, FatByte, PutEntry, Recorded, TornValue, Straddles;
    var k := clst + clst / 2;
    ghost var g, img, fats, log := fs.geo, fs.Img(), fs.fats, fs.log;
    ImageShaped(fs);
    Apart12(g, clst);
    LoadedByte(g, img, k, fs.win[..]);
    ghost var torn := HalfPut(fs.Fat(), clst, val);
    FatAfterHalf(g, img, clst, val);
    forall j | 0 <= j < |log| ensures Recorded(g, fats + [torn], FatOf(g, log[j])) { StillRecorded(g, fats, fats + [torn], FatOf(g, log[j])); }
    PokeFat12(fs, k, i, First12(clst, fs.win[i], val), fats + [torn]);
    assert fs.Img() == HalfPut12(g, img, clst, val);
    res := LoadFat12(fs, clst, k + 1);
    if res == Ok {
      var o := (k + 1) % fs.geo.ss;
      PutEntryIs12(g, img, clst, val);
      ghost var done := fats + [FatOf(g, PutEntry(g, img, clst, val))];
      LogRecorded(g, log, fats, done, clst, val);
      PokeFat12(fs, k + 1, o, Second12(clst, fs.win[o], val), done);
    }
  }

  method PutFat16(fs: FatFs, clst: nat, val: nat) returns (res: FResult)
    requires fs.Valid() && fs.geo.fsType == Fat16 && fs.geo.ValidCluster(clst)
    modifies fs`wflag, fs`winsect, fs`marks, fs`log, fs`fats, fs.win, fs.disk
    ensures fs.Valid() && fs.Grows()
    ensures res == Ok || (res == DiskErr && fs.disk.mayFail)
    ensures res == Ok ==> fs.Img() == PutEntry(fs.geo, old(fs.Img()), clst, val)
    ensures res == Ok ==> fs.log == old(fs.log) + [fs.Img()] && fs.fats == old(fs.fats) + [fs.Fat()]
    ensures res == DiskErr ==> fs.Img() == old(fs.Img()) && fs.fats == old(fs.fats)
    ensures fs.winsect == old(fs.winsect) || fs.winsect == NO_SECTOR || fs.geo.InFat(fs.winsect)
    ensures old(fs.Mirrored()) && !fs.disk.mayFail ==> fs.Mirrored()
  {
    hide Geo.Sound, Journal, Agree, Geo.FatBytes, FatOf, ByteSector, ByteOffset, SetPair, Overlay, Blank, PutEntry, StWord, StDword, Raw32, OnlyFat;
    var g := fs.geo;
    WordPlace(g, clst);
    res := MoveWindow(fs, g.fatbase + clst / (g.ss / 2));
    if res == Ok {
      ImageShaped(fs);
      ghost var secs, img, before := fs.disk.sectors, fs.Img(), fs.win[..];
      var at := clst * 2 % g.ss;
      LoadedWord(g, img, clst, before, at);
      StoreWord(fs.win, at, val);
      StoredWord(g, img, 2 * clst, val, before, at);
      PutEntryIs16(g, img, clst, val);
      BlankAt(g, secs, fs.winsect);
      EditedIs(g, secs, fs.wflag, fs.winsect, before, fs.win[..]);
      CommitFat(fs);
    }
  }

  method PutFat32(fs: FatFs, clst: nat, val: nat) returns (res: FResult)
    requires fs.Valid() && fs.geo.fsType == Fat32 && fs.geo.ValidCluster(clst)
    modifies fs`wflag, fs`winsect, fs`marks, fs`log, fs`fats, fs.win, fs.disk
    ensures fs.Valid() && fs.Grows()
    ensures res == Ok || (res == DiskErr && fs.disk.mayFail)
    ensures res == Ok ==> fs.Img() == PutEntry(fs.geo, old(fs.Img()), clst, val)
    ensures res == Ok ==> fs.log == old(fs.log) + [fs.Img()] && fs.fats == old(fs.fats) + [fs.Fat()]
    ensures res == DiskErr ==> fs.Img() == old(fs.Img()) && fs.fats == old(fs.fats)
    ensures fs.winsect == old(fs.winsect) || fs.winsect == NO_SECTOR || fs.geo.InFat(fs.winsect)
    ensures old(fs.Mirrored()) && !fs.disk.mayFail ==> fs.Mirrored()
  {
    hide Times, Quotient, Remainder;
    hide Geo.Sound, Journal, Agree, Geo.FatBytes, FatOf, ByteSector, ByteOffset, SetPair, Overlay, Blank, PutEntry, StWord, StDword, Raw32, OnlyFat, Shaped;
    var g := fs.geo;
    DwordPlace(g, clst);
    res := MoveWindow(fs, g.fatbase + clst / (g.ss / 4));
    if res == Ok {
      ImageShaped(fs);
      ghost var secs, img, before := fs.disk.sectors, fs.Img(), fs.win[..];
      var at := clst * 4 % g.ss;
      LoadedDword(g, img, clst, before, at);
      var w := Merge32(val, LdDword(fs.win[..], at));
      StoreDword(fs.win, at, w);
      StoredDword(g, img, clst, w, before, at);
      PutEntryIs32(g, img, clst, val);
      BlankAt(g, secs, fs.winsect);
      EditedIs(g, secs, fs.wflag, fs.winsect, before, fs.win[..]);
      CommitFat(fs);
    }
  }

  /** The window is marked dirty after a whole FAT entry was stored in it. */
  method CommitFat(fs: FatFs)
    requires fs.Loaded() && forall j :: 0 <= j < |fs.log| ==> Recorded(fs.geo, fs.fats, FatOf(fs.geo, fs.log[j]))
    modifies fs`wflag, fs`log, fs`fats
    ensures fs.Valid() && fs.Img() == old(fs.Edited())
    ensures fs.log == old(fs.log) + [fs.Img()] && fs.fats == old(fs.fats) + [fs.Fat()]
    ensures old(fs.Mirrored()) ==> fs.Mirrored()
  {
    hide Geo.Sound, Journal, Agree, FatOf, Blank, Overlay, Recorded;
    ghost var fats := fs.fats + [FatOf(fs.geo, fs.Edited())];
    forall j | 0 <= j < |fs.log| ensures Recorded(fs.geo, fats, FatOf(fs.geo, fs.log[j])) {
      StillRecorded(fs.geo, fs.fats, fats, FatOf(fs.geo, fs.log[j]));
    }
    fs.fats := fats;
    Touch(fs);
  }

  lemma PutEntryIs12(g: Geo, img: Image, c: nat, v: nat)
    requires g.fsType == Fat12
    ensures PutEntry(g, img, c, v) ==
      var half, k := HalfPut12(g, img, c, v), c + c / 2 + 1;
      SetFatByte(g, half, k, Second12(c, FatByte(g, half, k), v))
  {
    hide HalfPut12, SetFatByte, Second12, FatByte;
  }

  lemma PutEntryIs16(g: Geo, img: Image, c: nat, v: nat)
    requires g.fsType == Fat16
    ensures PutEntry(g, img, c, v) == SetPair(g, img, 2 * c, v)
  {
  }

  lemma PutEntryIs32(g: Geo, img: Image, c: nat, v: nat)
    requires g.fsType == Fat32
    ensures PutEntry(g, img, c, v) ==
      var w := Merge32(v, Raw32(g, img, c));
      SetPair(g, SetPair(g, img, 4 * c, w), 4 * c + 2, w / 0x1_0000)
  {
  }

  /** `put_fat` */
  method PutFat(fs: FatFs, clst: nat, val: nat) returns (res: FResult)
    requires fs.Valid()
    modifies fs`wflag, fs`winsect, fs`marks, fs`log, fs`fats, fs.win, fs.disk
    ensures fs.Valid() && fs.Grows()
    ensures res == Ok || res == IntErr || (res == DiskErr && fs.disk.mayFail)
    ensures res == IntErr <==> !fs.geo.ValidCluster(clst)
    ensures res == Ok ==> fs.Img() == PutEntry(fs.geo, old(fs.Img()), clst, val)
    ensures res == Ok ==> fs.Fat() == old(fs.Fat())[clst := Cut(fs.geo.fsType, val)]
    ensures res == Ok ==> fs.fats == old(fs.fats) + [fs.Fat()]
    ensures res == Ok && fs.geo.fsType != Fat12 ==> fs.log == old(fs.log) + [fs.Img()]
    ensures res == IntErr ==> fs.fats == old(fs.fats) && fs.Img() == old(fs.Img())
    ensures res == DiskErr ==>
      || (fs.fats == old(fs.fats) && fs.Img() == old(fs.Img()))
      || (fs.geo.fsType == Fat12 && Straddles(fs.geo, clst) && clst < |old(fs.Fat())|
          && fs.fats == old(fs.fats) + [HalfPut(old(fs.Fat()), clst, val)])
    ensures OnlyFat(fs.geo, old(fs.Img()), fs.Img())
    ensures fs.winsect == old(fs.winsect) || fs.winsect == NO_SECTOR || fs.geo.InFat(fs.winsect)
    ensures old(fs.Mirrored()) && !fs.disk.mayFail ==> fs.Mirrored()
  {
    hide Geo.Sound, Journal, Agree, FatOf, Blank, Overlay, PutEntry, HalfPut12, Shaped, Traced, Cut, Geo.FatBytes;
    res := IntErr;
    ImageShaped(fs);
    if clst >= 2 && clst < fs.geo.nFatent {
      PutGet(fs.geo, fs.Img(), clst, val);
      FatAfterPut(fs.geo, fs.Img(), clst, val);
      match fs.geo.fsType {
        case Fat12 =>
          HalfOnlyFat(fs.geo, fs.Img(), clst, val);
          res := PutFat12(fs, clst, val);
        case Fat16 => res := PutFat16(fs, clst, val);
        case Fat32 => res := PutFat32(fs, clst, val);
      }
    }
  }

  lemma HalfOnlyFat(g: Geo, img: Image, c: nat, v: nat)
    requires Shaped(g, img) && g.fsType == Fat12 && c < g.nFatent
    ensures OnlyFat(g, img, HalfPut12(g, img, c, v))
  {
    var k := c + c / 2;
    SetGet(g, img, k, First12(c, FatByte(g, img, k), v));
  }
}
