/** Long file names: how a name is cut into directory entries, and the three ways the engine
    touches such an entry. */
module Lfn {
  import opened Bytes

  const LFN_OFS: seq<nat> := [1, 3, 5, 7, 9, 14, 16, 18, 20, 22, 24, 28, 30]
  const LLEF: nat := 0x40   // last long entry flag in the ordinal
  const AM_LFN: byte := 0x0F
  const MAX_LFN: nat := 255
  const FILLER: nat := 0xFFFF

  type Entry = e: seq<byte> | |e| == 32 witness Zeros(32)

  /** Character s of a long name entry. */
  function CharOf(e: Entry, s: nat): (c: nat)
    requires s < 13
    ensures c < 0x1_0000
  {
    LdWord(e, LFN_OFS[s])
  }

  predicate IsLast(e: Entry)
  {
    e[0] as nat / LLEF % 2 == 1
  }

  // ----- writing

  /** The name the buffer holds, up to its terminator. */
  ghost predicate Names(buf: seq<nat>, name: seq<nat>)
  {
    && |name| < |buf| && buf[..|name|] == name && buf[|name|] == 0
    && forall i :: 0 <= i < |name| ==> 0 < name[i] < FILLER
  }

  /** The character of the name at position i: past its end one 0, then fillers. */
  function PieceChar(name: seq<nat>, i: nat): nat
  {
    if i < |name| then name[i] else if i == |name| then 0 else FILLER
  }

  /** e is long name entry number ord of the name. */
  ghost predicate IsPiece(e: Entry, name: seq<nat>, ord: nat, sum: byte)
  {
    && 1 <= ord && e[0] as nat == ord + (if |name| <= ord * 13 then LLEF else 0)
    && e[11] == AM_LFN && e[12] == 0 && e[13] == sum && LdWord(e, 26) == 0
    && forall s :: 0 <= s < 13 ==> CharOf(e, s) == PieceChar(name, (ord - 1) * 13 + s)
  }

  /** `put_lfn` into the entry at offset at of the window. */
  method PutLfn(lfn: array<nat>, win: array<byte>, at: nat, ord: nat, sum: byte, ghost name: seq<nat>)
    requires at + 32 <= win.Length && Names(lfn[..], name) && 1 <= ord <= 20 && (ord - 1) * 13 < |name| <= MAX_LFN
    modifies win
    ensures IsPiece(win[at..at + 32], name, ord, sum)
    ensures SameOutside(old(win[..]), win[..], at, at + 32)
  {
    win[at + 13] := sum;
    win[at + 11] := AM_LFN;
    win[at + 12] := 0;
    PokeWord(win, at + 26, 0);
    var i: nat := (ord - 1) * 13;
    var wc;
    i, wc := PutChars(lfn, win, at, i, name);
    var o := ord;
    if wc == FILLER || lfn[i] == 0 { o := o + LLEF; }
    win[at] := o;
    forall t | 0 <= t < 13 ensures LdWord(win[..], at + LFN_OFS[t]) == PieceChar(name, (ord - 1) * 13 + t) {}
    PieceMade(win[..], at, name, ord, sum);
  }

  /** The bytes of a piece, where they lie in the window. */
  lemma PieceMade(win: seq<byte>, at: nat, name: seq<nat>, ord: nat, sum: byte)
    requires at + 32 <= |win| && 1 <= ord && win[at] as nat == ord + (if |name| <= ord * 13 then LLEF else 0)
    requires win[at + 11] == AM_LFN && win[at + 12] == 0 && win[at + 13] == sum && LdWord(win, at + 26) == 0
    requires forall t :: 0 <= t < 13 ==> LdWord(win, at + LFN_OFS[t]) == PieceChar(name, (ord - 1) * 13 + t)
    ensures IsPiece(win[at..at + 32], name, ord, sum)
  {
    var e: Entry := win[at..at + 32];
    assert LdWord(e, 26) == LdWord(win, at + 26);
    forall t | 0 <= t < 13 ensures CharOf(e, t) == PieceChar(name, (ord - 1) * 13 + t) {
      assert CharOf(e, t) == LdWord(win, at + LFN_OFS[t]);
    }
  }

  /** The loop of `put_lfn`. */
  method PutChars(lfn: array<nat>, win: array<byte>, at: nat, base: nat, ghost name: seq<nat>) returns (i: nat, wc: nat)
    requires at + 32 <= win.Length && Names(lfn[..], name) && base < |name|
    modifies win
    ensures forall t :: 0 <= t < 13 ==> LdWord(win[..], at + LFN_OFS[t]) == PieceChar(name, base + t)
    ensures SameOutside(old(win[..]), win[..], at, at + 32)
    ensures HeadKept(old(win[..]), win[..], at)
    ensures wc == FILLER <==> |name| < base + 13
    ensures wc != FILLER ==> i == base + 13
  {
    hide LdWord, HeadKept, SameOutside;
    ghost var was := win[..];
    Unchanged(was, at);
    i, wc := base, 0;
    var s: nat := 0;
    while s < 13
      invariant s <= 13 && SameOutside(was, win[..], at, at + 32)
      invariant HeadKept(was, win[..], at)
      invariant forall t :: 0 <= t < s ==> LdWord(win[..], at + LFN_OFS[t]) == PieceChar(name, base + t)
      invariant wc == FILLER <==> base + s > |name|
      invariant wc != FILLER ==> i == base + s
    {
      if wc != FILLER {
        wc := lfn[i];
        assert wc == PieceChar(name, base + s);
        i := i + 1;
      }
      ghost var before := win[..];
      PokeWord(win, at + LFN_OFS[s], wc);
      Kept(was, before, win[..], at, s, name, base);
      if wc == 0 { wc := FILLER; }
      s := s + 1;
    }
  }

  /** The bytes of the entry that are no characters. */
  ghost predicate HeadKept(a: seq<byte>, b: seq<byte>, at: nat)
  {
    |a| == |b| && at + 32 <= |a|
    && a[at] == b[at] && a[at + 11] == b[at + 11] && a[at + 12] == b[at + 12] && a[at + 13] == b[at + 13]
    && a[at + 26] == b[at + 26] && a[at + 27] == b[at + 27]
  }

  lemma Unchanged(a: seq<byte>, at: nat)
    requires at + 32 <= |a|
    ensures SameOutside(a, a, at, at + 32) && HeadKept(a, a, at)
  {
  }

  /** Storing character s keeps the ones before it and everything else. */
  lemma Kept(was: seq<byte>, a: seq<byte>, b: seq<byte>, at: nat, s: nat, name: seq<nat>, base: nat)
    requires s < 13 && at + 32 <= |a| && SameOutside(a, b, at + LFN_OFS[s], at + LFN_OFS[s] + 2)
    requires SameOutside(was, a, at, at + 32) && HeadKept(was, a, at)
    requires forall t :: 0 <= t < s ==> LdWord(a, at + LFN_OFS[t]) == PieceChar(name, base + t)
    ensures SameOutside(was, b, at, at + 32) && HeadKept(was, b, at)
    ensures forall t :: 0 <= t < s ==> LdWord(b, at + LFN_OFS[t]) == PieceChar(name, base + t)
  {
    assert LFN_OFS[s] + 2 <= 11 || 14 <= LFN_OFS[s] <= 24 || 28 <= LFN_OFS[s] <= 30;
    assert 1 <= LFN_OFS[s];
    forall t | 0 <= t < s ensures LdWord(b, at + LFN_OFS[t]) == LdWord(a, at + LFN_OFS[t]) {
      assert LFN_OFS[t] + 2 <= LFN_OFS[s];
    }
  }

  // ----- reading

  datatype Pick = Failed(buf: seq<nat>) | Picked(buf: seq<nat>, i: nat, wc: nat)

  /** The loop of `pick_lfn` from character s on. */
  function PickFrom(buf: seq<nat>, e: Entry, i: nat, wc: nat, s: nat): (p: Pick)
    requires |buf| > MAX_LFN && s <= 13
    ensures |p.buf| == |buf|
    decreases 13 - s
  {
    if s == 13 then Picked(buf, i, wc)
    else
      var uc := CharOf(e, s);
      if wc != 0 then
        if i >= MAX_LFN then Failed(buf) else PickFrom(buf[i := uc], e, i + 1, uc, s + 1)
      else if uc != FILLER then Failed(buf)
      else PickFrom(buf, e, i, wc, s + 1)
  }

  /** Where the characters of an entry go; the DWORD wraps for ordinal 0. */
  function PieceBase(ord: nat): nat
  {
    if ord == 0 then 0xFFFF_FFF3 else (ord - 1) * 13
  }

  function Unflagged(b: byte): byte
  {
    if b as nat / LLEF % 2 == 1 then b - 0x40 else b
  }

  /** `pick_lfn`: whether the entry is taken, and the buffer afterwards. */
  function PickOf(buf: seq<nat>, e: Entry): (r: (bool, seq<nat>))
    requires |buf| > MAX_LFN
    ensures |r.1| == |buf|
  {
    if LdWord(e, 26) != 0 then (false, buf)
    else
      match PickFrom(buf, e, PieceBase(Unflagged(e[0]) as nat), 1, 0)
      case Failed(b) => (false, b)
      case Picked(b, i, wc) =>
        if IsLast(e) then (if i >= MAX_LFN then (false, b) else (true, b[i := 0])) else (true, b)
  }

  method PickLfn(lfnbuf: array<nat>, e: Entry) returns (ok: bool)
    requires lfnbuf.Length > MAX_LFN
    modifies lfnbuf
    ensures (ok, lfnbuf[..]) == PickOf(old(lfnbuf[..]), e)
  {
    hide CharOf, LdWord, Unflagged, PieceBase, IsLast;
    if LdWord(e, 26) != 0 { return false; }
    ghost var was := lfnbuf[..];
    var i: nat := PieceBase(Unflagged(e[0]) as nat);
    ghost var i0 := i;
    var wc: nat, s: nat := 1, 0;
    while s < 13
      invariant s <= 13 && PickFrom(lfnbuf[..], e, i, wc, s) == PickFrom(was, e, i0, 1, 0)
    {
      var uc := CharOf(e, s);
      if wc != 0 {
        if i >= MAX_LFN { return false; }
        ghost var b := lfnbuf[..];
        lfnbuf[i] := uc;
        assert lfnbuf[..] == b[i := uc];
        i, wc := i + 1, uc;
      } else {
        if uc != FILLER { return false; }
      }
      s := s + 1;
    }
    if IsLast(e) {
      if i >= MAX_LFN { return false; }
      lfnbuf[i] := 0;
    }
    ok := true;
  }

  // ----- a written entry reads back

  /** The buffer holds the name from character `from` on, with its terminator. */
  ghost predicate Holds(buf: seq<nat>, name: seq<nat>, from: nat)
  {
    && |name| < |buf| && buf[|name|] == 0
    && forall i :: from <= i < |name| ==> buf[i] == name[i]
  }

  /** Where the characters of a piece end in the buffer. */
  function Stop(name: seq<nat>, base: nat): nat
  {
    if base + 13 <= |name| then base + 13 else |name| + 1
  }

  /** b is a with the name's characters from lo up to hi in place. */
  ghost predicate Filled(a: seq<nat>, b: seq<nat>, name: seq<nat>, lo: nat, hi: nat)
  {
    |a| == |b| && forall k :: 0 <= k < |a| ==> b[k] == if lo <= k < hi then PieceChar(name, k) else a[k]
  }

  lemma FilledStep(a: seq<nat>, c: nat, b: seq<nat>, name: seq<nat>, lo: nat, hi: nat)
    requires lo < |a| && c == PieceChar(name, lo) && Filled(a[lo := c], b, name, lo + 1, hi) && lo < hi
    ensures Filled(a, b, name, lo, hi)
  {
  }

  lemma FilledNone(a: seq<nat>, name: seq<nat>, i: nat)
    ensures Filled(a, a, name, i, i)
  {
  }

  /** Reading characters s.. of piece number base / 13 + 1 of the name. */
  lemma {:induction false} PickRun(buf: seq<nat>, e: Entry, name: seq<nat>, base: nat, s: nat, i: nat, wc: nat)
    requires |buf| > MAX_LFN && s <= 13 && |name| <= MAX_LFN && forall k :: 0 <= k < |name| ==> 0 < name[k] < FILLER
    requires forall t :: 0 <= t < 13 ==> CharOf(e, t) == PieceChar(name, base + t)
    requires if base + s <= |name| then i == base + s && wc != 0 else i == |name| + 1 && wc == 0
    requires base + s <= |name| || i <= MAX_LFN
    ensures var p := PickFrom(buf, e, i, wc, s);
      && (p.Failed? <==> Stop(name, base) > MAX_LFN && s < 13 && base + s <= |name|)
      && (p.Picked? ==> p.i == Stop(name, base) && Filled(buf, p.buf, name, i, Stop(name, base)))
    decreases 13 - s
  {
    hide CharOf, Filled;
    if s == 13 {
      FilledNone(buf, name, i);
    } else {
      var uc := CharOf(e, s);
      assert uc == PieceChar(name, base + s);
      if wc != 0 {
        if i < MAX_LFN {
          PickRun(buf[i := uc], e, name, base, s + 1, i + 1, uc);
          var p := PickFrom(buf[i := uc], e, i + 1, uc, s + 1);
          hide PickFrom;
          if p.Picked? { FilledStep(buf, uc, p.buf, name, i, Stop(name, base)); }
        }
      } else {
        PickRun(buf, e, name, base, s + 1, i, wc);
      }
    }
  }

  lemma FlagOf(e: Entry, name: seq<nat>, ord: nat, sum: byte)
    requires IsPiece(e, name, ord, sum) && ord <= 20
    ensures IsLast(e) <==> |name| <= ord * 13
    ensures Unflagged(e[0]) as nat == ord && e[0] as nat % 0x40 == ord
    ensures PieceBase(Unflagged(e[0]) as nat) == (ord - 1) * 13
  {
  }

  /** The last piece of a name, which comes first, is taken exactly if the name has at most
      253 characters: a longer one leaves no room for the terminator where it is stored. */
  lemma PickLast(buf: seq<nat>, e: Entry, name: seq<nat>, ord: nat, sum: byte)
    requires IsPiece(e, name, ord, sum) && |buf| > MAX_LFN && forall k :: 0 <= k < |name| ==> 0 < name[k] < FILLER
    requires (ord - 1) * 13 < |name| <= ord * 13 && |name| <= MAX_LFN
    ensures PickOf(buf, e).0 <==> |name| <= 253
    ensures |name| <= 253 ==> Holds(PickOf(buf, e).1, name, (ord - 1) * 13)
  {
    FlagOf(e, name, ord, sum);
    PickRun(buf, e, name, (ord - 1) * 13, 0, (ord - 1) * 13, 1);
  }

  /** Every other piece is taken, in front of what was read before. */
  lemma PickOther(buf: seq<nat>, e: Entry, name: seq<nat>, ord: nat, sum: byte)
    requires IsPiece(e, name, ord, sum) && |buf| > MAX_LFN && forall k :: 0 <= k < |name| ==> 0 < name[k] < FILLER
    requires ord * 13 < |name| <= MAX_LFN && Holds(buf, name, ord * 13)
    ensures PickOf(buf, e).0 && Holds(PickOf(buf, e).1, name, (ord - 1) * 13)
  {
    FlagOf(e, name, ord, sum);
    PickRun(buf, e, name, (ord - 1) * 13, 0, (ord - 1) * 13, 1);
  }

  // ----- comparing

  datatype Cmp = Mismatch | Compared(i: nat, wc: nat)

  /** The loop of `cmp_lfn` from character s on. */
  function CmpFrom(up: nat -> nat, buf: seq<nat>, e: Entry, i: nat, wc: nat, s: nat): Cmp
    requires |buf| > MAX_LFN && s <= 13
    decreases 13 - s
  {
    if s == 13 then Compared(i, wc)
    else
      var uc := CharOf(e, s);
      if wc != 0 then
        if i >= MAX_LFN || up(uc) != up(buf[i]) then Mismatch else CmpFrom(up, buf, e, i + 1, uc, s + 1)
      else if uc != FILLER then Mismatch
      else CmpFrom(up, buf, e, i, wc, s + 1)
  }

  lemma {:induction false} CmpBound(up: nat -> nat, buf: seq<nat>, e: Entry, i: nat, wc: nat, s: nat)
    requires |buf| > MAX_LFN && s <= 13 && (i <= MAX_LFN || (s < 13 && wc != 0))
    ensures CmpFrom(up, buf, e, i, wc, s).Compared? ==> CmpFrom(up, buf, e, i, wc, s).i <= MAX_LFN
    decreases 13 - s
  {
    if s < 13 {
      if wc != 0 {
        if i < MAX_LFN { CmpBound(up, buf, e, i + 1, CharOf(e, s), s + 1); }
      } else {
        CmpBound(up, buf, e, i, wc, s + 1);
      }
    }
  }

  /** `cmp_lfn`: the entry's part of the name matches the sought name, upper-cased. */
  predicate CmpOf(up: nat -> nat, buf: seq<nat>, e: Entry)
    requires |buf| > MAX_LFN
  {
    LdWord(e, 26) == 0 &&
    var c := CmpFrom(up, buf, e, PieceBase(e[0] as nat % 0x40), 1, 0);
    CmpBound(up, buf, e, PieceBase(e[0] as nat % 0x40), 1, 0);
    c.Compared? && !(IsLast(e) && c.wc != 0 && buf[c.i] != 0)
  }

  method CmpLfn(up: nat -> nat, lfnbuf: array<nat>, e: Entry) returns (m: bool)
    requires lfnbuf.Length > MAX_LFN
    ensures m == CmpOf(up, lfnbuf[..], e)
  {
    if LdWord(e, 26) != 0 { return false; }
    var i: nat := PieceBase(e[0] as nat % 0x40);
    ghost var i0 := i;
    var wc: nat, s: nat := 1, 0;
    while s < 13
      invariant s <= 13 && CmpFrom(up, lfnbuf[..], e, i, wc, s) == CmpFrom(up, lfnbuf[..], e, i0, 1, 0)
    {
      var uc := CharOf(e, s);
      if wc != 0 {
        if i >= MAX_LFN || up(uc) != up(lfnbuf[i]) { return false; }
        i := i + 1;
        wc := uc;
      } else {
        if uc != FILLER { return false; }
      }
      s := s + 1;
    }
    CmpBound(up, lfnbuf[..], e, i0, 1, 0);
    m := !(IsLast(e) && wc != 0 && lfnbuf[i] != 0);
  }

  // ----- the checksum

  /** `sum_sfn`: rotate right, add the next byte. */
  function SumFrom(sfn: seq<byte>, n: nat): (sum: byte)
    requires n <= |sfn|
  {
    if n == 0 then 0
    else
      var s := SumFrom(sfn, n - 1) as nat;
      (s / 2 + s % 2 * 0x80 + sfn[n - 1] as nat) % 0x100
  }

  function SumSfn(e: seq<byte>): (sum: byte)
    requires |e| >= 11
  {
    SumFrom(e, 11)
  }

  lemma Rotated(s: nat, b: nat)
    ensures (s / 2 + s * 0x80 + b) % 0x100 == (s / 2 + s % 2 * 0x80 + b) % 0x100
  {
    assert s * 0x80 == s / 2 * 0x100 + s % 2 * 0x80;
  }

  method SumOf(e: seq<byte>) returns (sum: byte)
    requires |e| >= 11
    ensures sum == SumSfn(e)
  {
    sum := 0;
    var n: nat := 0;
    while n < 11
      invariant n <= 11 && sum == SumFrom(e, n)
    {
      Rotated(sum as nat, e[n] as nat);
      sum := (sum as nat / 2 + sum as nat * 0x80 + e[n] as nat) % 0x100;
      n := n + 1;
    }
  }

  /** The checksum depends on the short name alone. */
  lemma {:induction false} SumPrefix(a: seq<byte>, b: seq<byte>, n: nat)
    requires n <= |a| && n <= |b| && a[..n] == b[..n]
    ensures SumFrom(a, n) == SumFrom(b, n)
  {
    if n > 0 {
      assert a[..n][n - 1] == a[n - 1] && b[..n][n - 1] == b[n - 1];
      assert a[..n - 1] == a[..n][..n - 1] && b[..n - 1] == b[..n][..n - 1];
      SumPrefix(a, b, n - 1);
    }
  }
}
