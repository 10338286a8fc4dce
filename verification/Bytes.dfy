/** Little-endian loads and stores in a byte buffer. */
module Bytes {

  type byte = b: int | 0 <= b < 0x100

  type Sector = seq<byte>

  /** `ld_word` */
  function LdWord(s: seq<byte>, i: nat): (v: nat)
    requires i + 1 < |s|
    ensures v < 0x1_0000
  {
    s[i + 1] as int * 0x100 + s[i] as int
  }

  /** `ld_dword` */
  function LdDword(s: seq<byte>, i: nat): (v: nat)
    requires i + 3 < |s|
    ensures v < 0x1_0000_0000
  {
    LdWord(s, i + 2) * 0x1_0000 + LdWord(s, i)
  }

  /** The bytes of a number, lowest first. */
  lemma LittleEndian(s: seq<byte>, i: nat)
    requires i + 3 < |s|
    ensures LdWord(s, i) == s[i] as nat + 0x100 * s[i + 1] as nat
    ensures LdDword(s, i) == s[i] as nat + 0x100 * s[i + 1] as nat + 0x1_0000 * s[i + 2] as nat + 0x100_0000 * s[i + 3] as nat
  {
  }

  /** Which bytes a given 16-bit number has. */
  lemma WordIs(s: seq<byte>, i: nat, a: byte, b: byte)
    requires i + 1 < |s|
    ensures LdWord(s, i) == a as nat + 0x100 * b as nat <==> s[i] == a && s[i + 1] == b
  {
  }

  /** Which bytes a given 32-bit number has. */
  lemma DwordIs(s: seq<byte>, i: nat, a: byte, b: byte, c: byte, d: byte)
    requires i + 3 < |s|
    ensures LdDword(s, i) == a as nat + 0x100 * b as nat + 0x1_0000 * c as nat + 0x100_0000 * d as nat <==>
      s[i] == a && s[i + 1] == b && s[i + 2] == c && s[i + 3] == d
  {
    hide LdWord;
    WordIs(s, i, a, b);
    WordIs(s, i + 2, c, d);
  }

  /** Which low three bytes a 32-bit number has. */
  lemma ThreeAre(s: seq<byte>, i: nat, a: byte, b: byte, c: byte)
    requires i + 3 < |s|
    ensures LdDword(s, i) % 0x100_0000 == a as nat + 0x100 * b as nat + 0x1_0000 * c as nat <==>
      s[i] == a && s[i + 1] == b && s[i + 2] == c
  {
    LittleEndian(s, i);
    LowThree(s[i] as nat + 0x100 * s[i + 1] as nat + 0x1_0000 * s[i + 2] as nat, s[i + 3]);
    DwordIs(s, i, a, b, c, s[i + 3]);
    hide LdDword, LdWord;
  }

  lemma LowThree(n: nat, d: byte)
    requires n < 0x100_0000
    ensures (n + 0x100_0000 * d as nat) % 0x100_0000 == n
  {
  }

  /** The low byte of a number. */
  function Low(v: nat): (b: byte)
  {
    v % 0x100
  }

  /** The buffer after `st_word`. */
  function StWord(s: seq<byte>, i: nat, v: nat): (t: seq<byte>)
    requires i + 1 < |s|
    ensures |t| == |s|
  {
    s[i := Low(v)][i + 1 := Low(v / 0x100)]
  }

  /** The buffer after `st_dword`. */
  function StDword(s: seq<byte>, i: nat, v: nat): (t: seq<byte>)
    requires i + 3 < |s|
    ensures |t| == |s|
  {
    s[i := Low(v)][i + 1 := Low(v / 0x100)][i + 2 := Low(v / 0x100 / 0x100)][i + 3 := Low(v / 0x100 / 0x100 / 0x100)]
  }

  /** A stored word reads back cut to 16 bits, and no other byte moves. */
  lemma WordRoundTrip(s: seq<byte>, i: nat, v: nat)
    requires i + 1 < |s|
    ensures LdWord(StWord(s, i, v), i) == v % 0x1_0000
    ensures forall k :: 0 <= k < |s| && k != i && k != i + 1 ==> StWord(s, i, v)[k] == s[k]
  {
  }

  /** A stored double word reads back cut to 32 bits, and no other byte moves. */
  lemma DwordRoundTrip(s: seq<byte>, i: nat, v: nat)
    requires i + 3 < |s|
    ensures LdDword(StDword(s, i, v), i) == v % 0x1_0000_0000
    ensures forall k :: 0 <= k < |s| && !(i <= k <= i + 3) ==> StDword(s, i, v)[k] == s[k]
  {
    var v2 := v / 0x100 / 0x100;
    LowPair(v);
    LowPair(v2);
    HighPair(v, v2);
    hide Low;
  }

  lemma LowPair(v: nat)
    ensures Low(v / 0x100) as nat * 0x100 + Low(v) as nat == v % 0x1_0000
  {
  }

  lemma HighPair(v: nat, v2: nat)
    requires v2 == v / 0x100 / 0x100
    ensures v2 % 0x1_0000 * 0x1_0000 + v % 0x1_0000 == v % 0x1_0000_0000
  {
    assert v == v2 * 0x1_0000 + v % 0x1_0000;
  }

  /** `st_word` through a pointer into a buffer. */
  method StoreWord(a: array<byte>, i: nat, v: nat)
    requires i + 1 < a.Length
    modifies a
    ensures a[..] == StWord(old(a[..]), i, v)
  {
    a[i] := Low(v);
    a[i + 1] := Low(v / 0x100);
  }

  /** `st_dword` through a pointer into a buffer. */
  method StoreDword(a: array<byte>, i: nat, v: nat)
    requires i + 3 < a.Length
    modifies a
    ensures a[..] == StDword(old(a[..]), i, v)
  {
    a[i] := Low(v);
    a[i + 1] := Low(v / 0x100);
    a[i + 2] := Low(v / 0x100 / 0x100);
    a[i + 3] := Low(v / 0x100 / 0x100 / 0x100);
  }

  /** Copies bytes into a buffer at an offset. */
  method CopyIn(a: array<byte>, at: nat, data: seq<byte>)
    requires at + |data| <= a.Length
    modifies a
    ensures a[..] == old(a[..])[..at] + data + old(a[..])[at + |data|..]
  {
    var i := 0;
    while i < |data|
      invariant 0 <= i <= |data|
      invariant forall k :: 0 <= k < a.Length ==>
        a[k] == if at <= k < at + i then data[k - at] else old(a[k])
    {
      a[at + i] := data[i];
      i := i + 1;
    }
  }

  /** Fills a whole buffer with zeros. */
  method Clear(a: array<byte>)
    modifies a
    ensures a[..] == Zeros(a.Length)
  {
    var i := 0;
    while i < a.Length
      invariant 0 <= i <= a.Length
      invariant forall k :: 0 <= k < i ==> a[k] == 0
    {
      a[i] := 0;
      i := i + 1;
    }
  }

  function Zeros(n: nat): (s: seq<byte>)
    ensures |s| == n && forall k :: 0 <= k < n ==> s[k] == 0
  {
    seq(n, _ => 0 as byte)
  }

  /** Only bytes of [lo, hi) may differ. */
  ghost predicate SameOutside(a: seq<byte>, b: seq<byte>, lo: nat, hi: nat)
  {
    |a| == |b| && forall k :: 0 <= k < |a| && !(lo <= k < hi) ==> b[k] == a[k]
  }

  method PokeWord(buf: array<byte>, i: nat, v: nat)
    requires i + 1 < buf.Length
    modifies buf
    ensures LdWord(buf[..], i) == v % 0x1_0000 && SameOutside(old(buf[..]), buf[..], i, i + 2)
  {
    WordRoundTrip(buf[..], i, v);
    hide StWord;
    StoreWord(buf, i, v);
  }

  method PokeDword(buf: array<byte>, i: nat, v: nat)
    requires i + 3 < buf.Length
    modifies buf
    ensures LdDword(buf[..], i) == v % 0x1_0000_0000 && SameOutside(old(buf[..]), buf[..], i, i + 4)
  {
    DwordRoundTrip(buf[..], i, v);
    hide StDword;
    StoreDword(buf, i, v);
  }

  method PokeBytes(buf: array<byte>, i: nat, data: seq<byte>)
    requires i + |data| <= buf.Length
    modifies buf
    ensures buf[..][i..i + |data|] == data && SameOutside(old(buf[..]), buf[..], i, i + |data|)
  {
    CopyIn(buf, i, data);
  }
}
