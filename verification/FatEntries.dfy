/** The FAT region of a volume image, read and updated as packed entries. */
module FatEntries {
  import opened Arith
  import opened Bytes
  import opened Geometry

  /** A volume image: the sectors, with shadow sectors blanked out. */
  type Image = seq<Sector>

  ghost predicate Shaped(g: Geo, img: Image)
  {
    && g.Sound() && g.FsInfoApart() && g.End() <= |img|
    && forall s :: 0 <= s < |img| && !g.Shadow(s) ==> |img[s]| == g.ss
  }

  /** The sector and the offset of byte k of the first FAT. */
  function ByteSector(g: Geo, k: nat): nat
  {
    g.fatbase + (if ValidSectorSize(g.ss) then Quotient(k, g.ss) else k)
  }

  function ByteOffset(g: Geo, k: nat): nat
  {
    if ValidSectorSize(g.ss) then Remainder(k, g.ss) else 0
  }

  /** Byte k of the first FAT. */
  function FatByte(g: Geo, img: Image, k: nat): byte
  {
    var s, i := ByteSector(g, k), ByteOffset(g, k);
    if s < |img| && i < |img[s]| then img[s][i] else 0
  }

  function SetFatByte(g: Geo, img: Image, k: nat, b: byte): (r: Image)
    ensures |r| == |img|
  {
    var s, i := ByteSector(g, k), ByteOffset(g, k);
    if s < |img| && i < |img[s]| then
      var sec: Sector := img[s][i := b];
      img[s := sec]
    else img
  }

  function Pair(lo: byte, hi: byte): (w: nat)
    ensures w < 0x1_0000
  {
    hi as int * 0x100 + lo as int
  }

  /** The FAT entry of cluster c. */
  function Entry(g: Geo, img: Image, c: nat): nat
  {
    match g.fsType
    case Fat12 =>
      var wc := Pair(FatByte(g, img, c + c / 2), FatByte(g, img, c + c / 2 + 1));
      if c % 2 == 1 then wc / 0x10 else wc % 0x1000
    case Fat16 => Pair(FatByte(g, img, 2 * c), FatByte(g, img, 2 * c + 1))
    case Fat32 => Raw32(g, img, c) % 0x1000_0000
  }

  /** All 32 bits of a FAT32 entry, reserved top bits included. */
  function Raw32(g: Geo, img: Image, c: nat): (w: nat)
    ensures w < 0x1_0000_0000
  {
    Pair(FatByte(g, img, 4 * c + 2), FatByte(g, img, 4 * c + 3)) * 0x1_0000
    + Pair(FatByte(g, img, 4 * c), FatByte(g, img, 4 * c + 1))
  }

  /** A value cut to the width of an entry. */
  function Cut(t: FsType, v: nat): nat
  {
    match t
    case Fat12 => v % 0x1000
    case Fat16 => v % 0x1_0000
    case Fat32 => v % 0x1000_0000
  }

  /** The FAT12 image after the first of the two bytes of an entry is stored. */
  function HalfPut12(g: Geo, img: Image, c: nat, v: nat): Image
  {
    var k := c + c / 2;
    SetFatByte(g, img, k, First12(c, FatByte(g, img, k), v))
  }

  /** A FAT32 value under the reserved top four bits already stored. */
  function Merge32(v: nat, raw: nat): (w: nat)
    requires raw < 0x1_0000_0000
    ensures w < 0x1_0000_0000 && w % 0x1000_0000 == v % 0x1000_0000 && w / 0x1000_0000 == raw / 0x1000_0000
  {
    v % 0x1000_0000 + raw / 0x1000_0000 * 0x1000_0000
  }

  /** The two bytes of a FAT12 entry, merged with the nibble of the neighbouring entry. */
  function First12(c: nat, p: byte, v: nat): byte
  {
    if c % 2 == 1 then p % 0x10 + v % 0x10 * 0x10 else Low(v)
  }

  function Second12(c: nat, p: byte, v: nat): byte
  {
    if c % 2 == 1 then Low(v / 0x10) else p / 0x10 * 0x10 + v / 0x100 % 0x10
  }

  function SetPair(g: Geo, img: Image, k: nat, v: nat): Image
  {
    SetFatByte(g, SetFatByte(g, img, k, Low(v)), k + 1, Low(v / 0x100))
  }

  /** The image after entry c is set to v. */
  function PutEntry(g: Geo, img: Image, c: nat, v: nat): (r: Image)
    ensures |r| == |img|
  {
    match g.fsType
    case Fat12 =>
      var half := HalfPut12(g, img, c, v);
      var k := c + c / 2 + 1;
      SetFatByte(g, half, k, Second12(c, FatByte(g, half, k), v))
    case Fat16 => SetPair(g, img, 2 * c, v)
    case Fat32 =>
      var w := Merge32(v, Raw32(g, img, c));
      SetPair(g, SetPair(g, img, 4 * c, w), 4 * c + 2, w / 0x1_0000)
  }

  /** The FAT as a map from cluster number to value. */
  function FatOf(g: Geo, img: Image): (fat: seq<nat>)
    ensures |fat| == g.nFatent
    ensures forall c :: 0 <= c < g.nFatent ==> fat[c] == Entry(g, img, c)
  {
    seq(g.nFatent, c requires 0 <= c => Entry(g, img, c))
  }

  /** Distinct FAT bytes lie at distinct places. */
  lemma SamePlace(g: Geo, a: nat, b: nat)
    requires ValidSectorSize(g.ss) && ByteSector(g, a) == ByteSector(g, b) && ByteOffset(g, a) == ByteOffset(g, b)
    ensures a == b
  {
    Arithmetic();
    hide Times, Quotient, Remainder;
    assert a == a / g.ss * g.ss + a % g.ss && b == b / g.ss * g.ss + b % g.ss;
  }

  /** Byte k is inside the first FAT. */
  lemma BytePlace(g: Geo, k: nat)
    requires g.Sound() && g.FsInfoApart() && k < g.FatBytes()
    ensures g.InFat(ByteSector(g, k)) && !g.Shadow(ByteSector(g, k)) && ByteOffset(g, k) < g.ss
    ensures ByteSector(g, k) < g.database
  {
    Arithmetic();
    hide Times, Quotient, Remainder;
    Arith.DivBelow(k, g.fsize, g.ss);
    Bounds(g);
  }

  lemma SetGet(g: Geo, img: Image, k: nat, b: byte)
    requires Shaped(g, img) && k < g.FatBytes()
    ensures Shaped(g, SetFatByte(g, img, k, b))
    ensures FatByte(g, SetFatByte(g, img, k, b), k) == b
    ensures forall j :: 0 <= j && j != k ==> FatByte(g, SetFatByte(g, img, k, b), j) == FatByte(g, img, j)
    ensures OnlyFat(g, img, SetFatByte(g, img, k, b))
  {
    Bounds(g);
    BytePlace(g, k);
    hide Geo.Sound, ByteSector, ByteOffset, Geo.FatBytes;
    var r := SetFatByte(g, img, k, b);
    forall j: nat | j != k ensures FatByte(g, r, j) == FatByte(g, img, j) {
      if ByteSector(g, j) == ByteSector(g, k) && ByteOffset(g, j) == ByteOffset(g, k) { SamePlace(g, j, k); }
    }
  }

  lemma SetPairGet(g: Geo, img: Image, k: nat, v: nat)
    requires Shaped(g, img) && k + 1 < g.FatBytes()
    ensures Shaped(g, SetPair(g, img, k, v))
    ensures Pair(FatByte(g, SetPair(g, img, k, v), k), FatByte(g, SetPair(g, img, k, v), k + 1)) == v % 0x1_0000
    ensures forall j :: 0 <= j && j != k && j != k + 1 ==> FatByte(g, SetPair(g, img, k, v), j) == FatByte(g, img, j)
    ensures OnlyFat(g, img, SetPair(g, img, k, v))
  {
    hide Geo.Sound;
    var one := SetFatByte(g, img, k, Low(v));
    SetGet(g, img, k, Low(v));
    SetGet(g, one, k + 1, Low(v / 0x100));
    BytePlace(g, k);
    BytePlace(g, k + 1);
    hide SetFatByte, FatByte;
    assert v / 0x100 % 0x100 * 0x100 + v % 0x100 == v % 0x1_0000;
  }

  /** Every sector outside the first FAT is the same in both images. */
  ghost predicate OnlyFat(g: Geo, a: Image, b: Image)
  {
    |a| == |b| && forall s :: 0 <= s < |a| && !g.InFat(s) ==> a[s] == b[s]
  }

  /** `put_fat` is a map update: entry c becomes v cut to its width, every other entry
      keeps its value, the reserved bits of a FAT32 entry stay, and nothing outside the
      first FAT moves. */
  lemma PutGet(g: Geo, img: Image, c: nat, v: nat)
    requires Shaped(g, img) && c < g.nFatent
    ensures Shaped(g, PutEntry(g, img, c, v))
    ensures OnlyFat(g, img, PutEntry(g, img, c, v))
    ensures Entry(g, PutEntry(g, img, c, v), c) == Cut(g.fsType, v)
    ensures forall d :: 0 <= d && d != c ==> Entry(g, PutEntry(g, img, c, v), d) == Entry(g, img, d)
    ensures g.fsType == Fat32 ==> Raw32(g, PutEntry(g, img, c, v), c) == Merge32(v, Raw32(g, img, c))
  {
    hide Geo.Sound, SetPair, FatByte, Pair, HalfPut12, SetFatByte, Raw32, Merge32;
    match g.fsType
    case Fat12 => PutGet12(g, img, c, v);
    case Fat16 => SetPairGet(g, img, 2 * c, v);
    case Fat32 => PutGet32(g, img, c, v);
  }

  lemma PutGet32(g: Geo, img: Image, c: nat, v: nat)
    requires Shaped(g, img) && c < g.nFatent && g.fsType == Fat32
    ensures Shaped(g, PutEntry(g, img, c, v)) && OnlyFat(g, img, PutEntry(g, img, c, v))
    ensures Raw32(g, PutEntry(g, img, c, v), c) == Merge32(v, Raw32(g, img, c))
    ensures forall d :: 0 <= d && d != c ==> Raw32(g, PutEntry(g, img, c, v), d) == Raw32(g, img, d)
  {
    var w := Merge32(v, Raw32(g, img, c));
    assert PutEntry(g, img, c, v) == SetPair(g, SetPair(g, img, 4 * c, w), 4 * c + 2, w / 0x1_0000);
    hide *;
    PutDword(g, img, c, w);
  }

  lemma PutDword(g: Geo, img: Image, c: nat, w: nat)
    requires Shaped(g, img) && c < g.nFatent && g.fsType == Fat32 && w < 0x1_0000_0000
    ensures var r := SetPair(g, SetPair(g, img, 4 * c, w), 4 * c + 2, w / 0x1_0000);
      && Shaped(g, r) && OnlyFat(g, img, r)
      && Raw32(g, r, c) == w
      && forall d :: 0 <= d && d != c ==> Raw32(g, r, d) == Raw32(g, img, d)
  {
    SplitDword(w);
    hide Geo.Sound, SetPair, FatByte, Pair;
    SetPairGet(g, img, 4 * c, w);
    var one := SetPair(g, img, 4 * c, w);
    SetPairGet(g, one, 4 * c + 2, w / 0x1_0000);
  }

  lemma SplitDword(w: nat)
    ensures w / 0x1_0000 % 0x1_0000 * 0x1_0000 + w % 0x1_0000 == w % 0x1_0000_0000
  {
  }

  lemma PutGet12(g: Geo, img: Image, c: nat, v: nat)
    requires Shaped(g, img) && c < g.nFatent && g.fsType == Fat12
    ensures Shaped(g, PutEntry(g, img, c, v)) && OnlyFat(g, img, PutEntry(g, img, c, v))
    ensures Entry(g, PutEntry(g, img, c, v), c) == v % 0x1000
    ensures forall d :: 0 <= d && d != c ==> Entry(g, PutEntry(g, img, c, v), d) == Entry(g, img, d)
  {
    hide Geo.Sound, FatByte, SetFatByte, First12, Second12;
    var k := c + c / 2;
    assert k + 1 < g.FatBytes();
    var half := HalfPut12(g, img, c, v);
    var r := PutEntry(g, img, c, v);
    SetGet(g, img, k, First12(c, FatByte(g, img, k), v));
    SetGet(g, half, k + 1, Second12(c, FatByte(g, half, k + 1), v));
    MergedNibbles(c, FatByte(g, img, k), FatByte(g, img, k + 1), v);
    hide HalfPut12, Pair, Low, Shaped, OnlyFat, PutEntry;
    forall d: nat | d != c ensures Entry(g, r, d) == Entry(g, img, d) {
      Elsewhere12(g, img, r, c, d);
    }
  }

  /** The merged bytes hold the value and leave the neighbour's nibble alone. */
  lemma MergedNibbles(c: nat, p: byte, q: byte, v: nat)
    ensures c % 2 == 1 ==> First12(c, p, v) % 0x10 == p % 0x10
    ensures c % 2 == 0 ==> Second12(c, q, v) / 0x10 == q / 0x10
    ensures c % 2 == 1 ==> Pair(First12(c, p, v), Second12(c, q, v)) / 0x10 == v % 0x1000
    ensures c % 2 == 0 ==> Pair(First12(c, p, v), Second12(c, q, v)) % 0x1000 == v % 0x1000
  {
    Nibbles(v);
    Unpack(First12(c, p, v), Second12(c, q, v));
    hide Pair;
  }

  /** The two entries packed in three bytes. */
  lemma Unpack(lo: byte, hi: byte)
    ensures Pair(lo, hi) / 0x10 == hi as int * 0x10 + lo / 0x10
    ensures Pair(lo, hi) % 0x1000 == hi % 0x10 * 0x100 + lo as int
  {
    var a, b, c, d := lo / 0x10, lo % 0x10, hi / 0x10, hi % 0x10;
    var p := Pair(lo, hi);
    assert p == c * 0x1000 + (d * 0x100 + lo as int);
    Arith.DivUnique(p, 0x1000, c, d * 0x100 + lo as int);
    Arith.DivUnique(p, 0x10, hi as int * 0x10 + a, b);
  }

  /** The two halves of a stored FAT12 value read back together. */
  lemma Nibbles(v: nat)
    ensures Low(v / 0x10) as int * 0x10 + v % 0x10 == v % 0x1000
    ensures v / 0x100 % 0x10 * 0x100 + Low(v) as int == v % 0x1000
  {
    Arith.DivUnique(v, 0x1000, v / 0x10 / 0x100, v / 0x10 % 0x100 * 0x10 + v % 0x10);
    Arith.DivUnique(v, 0x1000, v / 0x100 / 0x10, v / 0x100 % 0x10 * 0x100 + v % 0x100);
  }

  /** A FAT12 entry only sees its own nibbles of the bytes it shares. */
  lemma Elsewhere12(g: Geo, a: Image, b: Image, c: nat, d: nat)
    requires g.fsType == Fat12 && d != c
    requires forall j :: 0 <= j && j != c + c / 2 && j != c + c / 2 + 1 ==> FatByte(g, b, j) == FatByte(g, a, j)
    requires c % 2 == 1 ==> FatByte(g, b, c + c / 2) % 0x10 == FatByte(g, a, c + c / 2) % 0x10
    requires c % 2 == 0 ==> FatByte(g, b, c + c / 2 + 1) / 0x10 == FatByte(g, a, c + c / 2 + 1) / 0x10
    ensures Entry(g, b, d) == Entry(g, a, d)
  {
    hide FatByte;
    var k := d + d / 2;
    SharedByte(FatByte(g, a, k), FatByte(g, b, k), FatByte(g, a, k + 1), FatByte(g, b, k + 1));
    if d + 1 == c && c % 2 == 1 {
      assert k + 1 == c + c / 2;
    } else if c + 1 == d && c % 2 == 0 {
      assert k == c + c / 2 + 1;
    } else {
      assert k != c + c / 2 && k != c + c / 2 + 1 && k + 1 != c + c / 2;
    }
  }

  lemma SharedByte(lo: byte, lo': byte, hi: byte, hi': byte)
    ensures lo == lo' && hi % 0x10 == hi' % 0x10 ==> Pair(lo, hi) % 0x1000 == Pair(lo', hi') % 0x1000
    ensures lo / 0x10 == lo' / 0x10 && hi == hi' ==> Pair(lo, hi) / 0x10 == Pair(lo', hi') / 0x10
  {
    Unpack(lo, hi);
    Unpack(lo', hi');
    hide Pair;
  }

  // ----- a FAT12 entry between its two byte stores

  /** What entry c reads once the first byte of v is stored over the old value o. */
  function TornValue(c: nat, o: nat, v: nat): nat
  {
    if c % 2 == 1 then o / 0x10 * 0x10 + v % 0x10 else o / 0x100 * 0x100 + v % 0x100
  }

  /** The FAT map in that state. */
  function HalfPut(fat: seq<nat>, c: nat, v: nat): seq<nat>
    requires c < |fat|
  {
    fat[c := TornValue(c, fat[c], v)]
  }

  /** The two bytes of the entry lie in different sectors. */
  predicate Straddles(g: Geo, c: nat)
  {
    ByteSector(g, c + c / 2) != ByteSector(g, c + c / 2 + 1)
  }

  lemma TornPair(c: nat, p: byte, q: byte, v: nat)
    ensures c % 2 == 1 ==> Pair(First12(c, p, v), q) / 0x10 == TornValue(c, Pair(p, q) / 0x10, v)
    ensures c % 2 == 0 ==> Pair(First12(c, p, v), q) % 0x1000 == TornValue(c, Pair(p, q) % 0x1000, v)
  {
    var f := First12(c, p, v);
    Unpack(p, q);
    Unpack(f, q);
    if c % 2 == 1 {
      assert f / 0x10 == (v % 0x10) as byte;
      assert (q as nat * 0x10 + p as nat / 0x10) / 0x10 == q as nat;
    } else {
      assert f as nat == v % 0x100;
      assert (q as nat % 0x10 * 0x100 + p as nat) / 0x100 == q as nat % 0x10;
    }
    hide Pair, First12;
  }

  lemma TornPut12(g: Geo, img: Image, c: nat, v: nat)
    requires Shaped(g, img) && c < g.nFatent && g.fsType == Fat12
    ensures Entry(g, HalfPut12(g, img, c, v), c) == TornValue(c, Entry(g, img, c), v)
  {
    var k := c + c / 2;
    var p := FatByte(g, img, k);
    assert k + 1 < g.FatBytes();
    TornPair(c, p, FatByte(g, img, k + 1), v);
    hide Geo.Sound, SetFatByte, First12, FatByte, Pair, TornValue;
    SetGet(g, img, k, First12(c, p, v));
  }

  lemma TornElsewhere(g: Geo, img: Image, c: nat, v: nat, d: nat)
    requires Shaped(g, img) && c < g.nFatent && g.fsType == Fat12 && d != c
    ensures Entry(g, HalfPut12(g, img, c, v), d) == Entry(g, img, d)
  {
    var k := c + c / 2;
    var p := FatByte(g, img, k);
    assert k < g.FatBytes();
    MergedNibbles(c, p, 0, v);
    hide FatByte, Entry, SetFatByte, Shaped, First12, Geo.FatBytes;
    SetGet(g, img, k, First12(c, p, v));
    Elsewhere12(g, img, HalfPut12(g, img, c, v), c, d);
  }

  /** Between the two byte stores of `put_fat` the FAT map differs from the old one in
      entry c only, which reads its torn value. */
  lemma FatAfterHalf(g: Geo, img: Image, c: nat, v: nat)
    requires Shaped(g, img) && c < g.nFatent && g.fsType == Fat12
    ensures FatOf(g, HalfPut12(g, img, c, v)) == HalfPut(FatOf(g, img), c, v)
  {
    var half := HalfPut12(g, img, c, v);
    TornPut12(g, img, c, v);
    hide Entry, Shaped, HalfPut12, TornValue;
    forall d | 0 <= d < g.nFatent && d != c ensures Entry(g, half, d) == Entry(g, img, d) {
      TornElsewhere(g, img, c, v, d);
    }
  }

  /** The entries that straddle two sectors; the first of them is number 2 * ss / 3, so
      smaller FATs have none. */
  lemma FirstStraddle(g: Geo)
    requires ValidSectorSize(g.ss)
    ensures forall c: nat :: Straddles(g, c) <==> (c + c / 2) % g.ss == g.ss - 1
    ensures g.nFatent <= 2 * g.ss / 3 <==> forall c: nat :: c < g.nFatent ==> !Straddles(g, c)
  {
    Arithmetic();
    hide Times, Quotient, Remainder;
    forall c: nat ensures Straddles(g, c) <==> (c + c / 2) % g.ss == g.ss - 1 {
      NextSector(c + c / 2, g.ss);
    }
    hide ByteSector;
    var f := 2 * g.ss / 3;
    assert (f + f / 2) % g.ss == g.ss - 1 && Straddles(g, f);
    forall c: nat | c < f ensures !Straddles(g, c) {
      assert (c + c / 2) % g.ss == c + c / 2 < g.ss - 1;
    }
  }

  lemma NextSector(k: nat, ss: nat)
    requires ss > 0
    ensures k / ss != (k + 1) / ss <==> k % ss == ss - 1
  {
    var q, r := k / ss, k % ss;
    if r == ss - 1 { DivUnique(k + 1, ss, q + 1, 0); } else { DivUnique(k + 1, ss, q, r + 1); }
  }

  /** The FAT map after `put_fat`. */
  lemma FatAfterPut(g: Geo, img: Image, c: nat, v: nat)
    requires Shaped(g, img) && c < g.nFatent
    ensures FatOf(g, PutEntry(g, img, c, v)) == FatOf(g, img)[c := Cut(g.fsType, v)]
  {
    hide PutEntry, Entry, Geo.Sound;
    PutGet(g, img, c, v);
  }

  /** The FAT depends on the sectors of the first FAT alone. */
  lemma FatFrame(g: Geo, a: Image, b: Image)
    requires g.Sound() && g.FsInfoApart() && |a| == |b|
    requires forall s :: 0 <= s < |a| && g.InFat(s) ==> a[s] == b[s]
    ensures FatOf(g, a) == FatOf(g, b)
  {
    hide Geo.Sound;
    forall c: nat | c < g.nFatent ensures Entry(g, a, c) == Entry(g, b, c) {
      EntryFrame(g, a, b, c);
    }
  }

  lemma EntryFrame(g: Geo, a: Image, b: Image, c: nat)
    requires g.Sound() && g.FsInfoApart() && |a| == |b| && c < g.nFatent
    requires forall s :: 0 <= s < |a| && g.InFat(s) ==> a[s] == b[s]
    ensures Entry(g, a, c) == Entry(g, b, c)
  {
    hide Geo.Sound;
    forall k: nat | k < g.FatBytes() ensures FatByte(g, a, k) == FatByte(g, b, k) {
      BytePlace(g, k);
    }
    hide FatByte, Pair;
  }
}
