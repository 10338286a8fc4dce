/** A long name entry by its bytes: where its characters lie, how many there are, and when
    `pick_lfn` and `cmp_lfn` take it. */
module LfnText {
  import opened Bytes
  import opened Lfn

  /** Number of characters from place s on, up to a NUL. */
  function CountFrom(e: Entry, s: nat): (t: nat)
    requires s <= 13
    ensures s <= t <= 13 && (t < 13 ==> CharOf(e, t) == 0) && forall u :: s <= u < t ==> CharOf(e, u) != 0
    decreases 13 - s
  {
    if s == 13 || CharOf(e, s) == 0 then s else CountFrom(e, s + 1)
  }

  /** Number of characters of the entry; 13 if there is no NUL. */
  function Count(e: Entry): (t: nat)
    ensures t <= 13 && (t < 13 ==> CharOf(e, t) == 0) && forall u :: 0 <= u < t ==> CharOf(e, u) != 0
  {
    CountFrom(e, 0)
  }

  /** Characters with their NUL. */
  function Width(e: Entry): (n: nat)
    ensures 1 <= n <= 13
  {
    if Count(e) < 13 then Count(e) + 1 else 13
  }

  /** Behind the NUL there are fillers only, and the cluster field is 0. */
  ghost predicate Tidy(e: Entry)
  {
    e[26] == 0 && e[27] == 0 && forall s :: Count(e) < s < 13 ==> CharOf(e, s) == 0xFFFF
  }

  // ----- cmp_lfn

  lemma {:induction false} FillersCompared(up: nat -> nat, buf: seq<nat>, e: Entry, i: nat, s: nat)
    requires |buf| > MAX_LFN && s <= 13
    ensures CmpFrom(up, buf, e, i, 0, s) ==
      if forall u :: s <= u < 13 ==> CharOf(e, u) == 0xFFFF then Compared(i, 0) else Mismatch
    decreases 13 - s
  {
    hide CharOf;
    if s < 13 && CharOf(e, s) == 0xFFFF { FillersCompared(up, buf, e, i, s + 1); }
  }

  /** The characters of the entry from place s on agree with the buffer from base + s on. */
  ghost predicate Agrees(up: nat -> nat, buf: seq<nat>, e: Entry, base: nat, s: nat)
    requires |buf| > MAX_LFN
  {
    forall u :: s <= u < Width(e) ==> base + u < MAX_LFN && up(CharOf(e, u)) == up(buf[base + u])
  }

  lemma {:induction false} CharsCompared(up: nat -> nat, buf: seq<nat>, e: Entry, base: nat, wc: nat, s: nat)
    requires |buf| > MAX_LFN && s <= Count(e) && wc != 0
    ensures var c := CmpFrom(up, buf, e, base + s, wc, s);
      && (c.Compared? <==> Agrees(up, buf, e, base, s) && forall u :: Count(e) < u < 13 ==> CharOf(e, u) == 0xFFFF)
      && (c.Compared? ==> c.i == base + Width(e) && (c.wc == 0 <==> Count(e) < 13))
    decreases 13 - s
  {
    hide CharOf, CountFrom;
    if s < Count(e) {
      if base + s < MAX_LFN && up(CharOf(e, s)) == up(buf[base + s]) {
        CharsCompared(up, buf, e, base, CharOf(e, s), s + 1);
      }
    } else if s < 13 {
      FillersCompared(up, buf, e, base + s + 1, s + 1);
    }
  }

  /** `cmp_lfn` takes exactly the tidy entries whose characters, NUL included, are those of the
      buffer up to upper case, at the place their number asks for; behind the 13 characters of
      a full last entry the buffer must end. */
  lemma CmpIs(up: nat -> nat, buf: seq<nat>, e: Entry)
    requires |buf| > MAX_LFN
    ensures CmpOf(up, buf, e) <==>
      && Tidy(e) && e[0] as nat % 0x40 >= 1
      && var base := (e[0] as nat % 0x40 - 1) * 13;
      && (forall u :: 0 <= u < Width(e) ==> base + u < 255 && up(CharOf(e, u)) == up(buf[base + u]))
      && (e[0] as nat / 0x40 % 2 == 1 && Count(e) == 13 ==> base + 13 < |buf| && buf[base + 13] == 0)
  {
    hide CharOf, CountFrom;
    var base := PieceBase(e[0] as nat % 0x40);
    CmpBound(up, buf, e, base, 1, 0);
    CharsCompared(up, buf, e, base, 1, 0);
    hide CmpFrom;
    assert e[0] as nat % 0x40 == 0 ==> !Agrees(up, buf, e, base, 0);
  }

  // ----- pick_lfn

  /** b is a with the first n characters of the entry in place from base on. */
  ghost predicate Copied(a: seq<nat>, b: seq<nat>, e: Entry, base: nat, s: nat, n: nat)
    requires n <= 13
  {
    |a| == |b| && forall k :: 0 <= k < |a| ==> b[k] == if base + s <= k < base + n then CharOf(e, k - base) else a[k]
  }

  lemma {:induction false} FillersPicked(buf: seq<nat>, e: Entry, i: nat, s: nat)
    requires |buf| > MAX_LFN && s <= 13
    ensures PickFrom(buf, e, i, 0, s) ==
      if forall u :: s <= u < 13 ==> CharOf(e, u) == 0xFFFF then Picked(buf, i, 0) else Failed(buf)
    decreases 13 - s
  {
    hide CharOf;
    if s < 13 && CharOf(e, s) == 0xFFFF { FillersPicked(buf, e, i, s + 1); }
  }

  lemma {:induction false} CharsPicked(buf: seq<nat>, e: Entry, base: nat, wc: nat, s: nat)
    requires |buf| > MAX_LFN && s <= Count(e) && wc != 0 && (s > 0 ==> base + s <= MAX_LFN)
    ensures var p := PickFrom(buf, e, base + s, wc, s);
      && (p.Picked? <==> base + Width(e) <= MAX_LFN && forall u :: Count(e) < u < 13 ==> CharOf(e, u) == 0xFFFF)
      && (p.Picked? ==> p.i == base + Width(e) && Copied(buf, p.buf, e, base, s, Width(e)))
    decreases 13 - s
  {
    hide CharOf, CountFrom;
    if s < 13 && base + s < MAX_LFN {
      if s < Count(e) {
        CharsPicked(buf[base + s := CharOf(e, s)], e, base, CharOf(e, s), s + 1);
      } else {
        FillersPicked(buf[base + s := CharOf(e, s)], e, base + s + 1, s + 1);
      }
    }
  }

  /** The entry is one `pick_lfn` takes: tidy, with a number, and its characters end below
      place 255; the last entry of a name leaves room for the NUL behind it. */
  ghost predicate GoodPiece(e: Entry)
  {
    && Tidy(e) && 1 <= e[0] as nat % 0x40 && e[0] < 0x80
    && (e[0] as nat % 0x40 - 1) * 13 + Width(e) <= if e[0] >= 0x40 then 254 else 255
  }

  /** `pick_lfn` takes exactly the good pieces, and copies their characters to their places. */
  lemma PickIs(buf: seq<nat>, e: Entry)
    requires |buf| > MAX_LFN
    ensures PickOf(buf, e).0 <==> GoodPiece(e)
    ensures GoodPiece(e) ==>
      var base, n, out := (e[0] as nat % 0x40 - 1) * 13, Width(e), PickOf(buf, e).1;
      forall k :: 0 <= k < |buf| ==>
        out[k] == if base <= k < base + n then CharOf(e, k - base) else if e[0] >= 0x40 && k == base + n then 0 else buf[k]
  {
    hide CharOf, CountFrom;
    NumberOf(e[0]);
    CharsPicked(buf, e, PieceBase(Unflagged(e[0]) as nat), 1, 0);
    hide PickFrom, Unflagged;
  }

  lemma NumberOf(x: byte)
    ensures if x < 0x80 then Unflagged(x) as nat == x as nat % 0x40 else Unflagged(x) as nat >= 0x80
    ensures x < 0x80 ==> (x as nat / 0x40 % 2 == 1 <==> x >= 0x40)
  {
  }

  // ----- the bytes of a piece

  /** The 32 bytes of a long name entry, place by place. */
  lemma PieceBytes(e: Entry, name: seq<nat>, ord: nat, sum: byte)
    ensures IsPiece(e, name, ord, sum) <==>
      && 1 <= ord && e[0] as nat == ord + (if |name| <= ord * 13 then 0x40 else 0)
      && e[11] == 0x0F && e[12] == 0 && e[13] == sum && e[26] == 0 && e[27] == 0
      && var p := (ord - 1) * 13;
      && LdWord(e, 1) == PieceChar(name, p) && LdWord(e, 3) == PieceChar(name, p + 1)
      && LdWord(e, 5) == PieceChar(name, p + 2) && LdWord(e, 7) == PieceChar(name, p + 3)
      && LdWord(e, 9) == PieceChar(name, p + 4) && LdWord(e, 14) == PieceChar(name, p + 5)
      && LdWord(e, 16) == PieceChar(name, p + 6) && LdWord(e, 18) == PieceChar(name, p + 7)
      && LdWord(e, 20) == PieceChar(name, p + 8) && LdWord(e, 22) == PieceChar(name, p + 9)
      && LdWord(e, 24) == PieceChar(name, p + 10) && LdWord(e, 28) == PieceChar(name, p + 11)
      && LdWord(e, 30) == PieceChar(name, p + 12)
    ensures forall i :: 0 <= i < |name| ==> PieceChar(name, i) == name[i]
    ensures PieceChar(name, |name|) == 0 && forall i :: i > |name| ==> PieceChar(name, i) == 0xFFFF
  {
    hide LdWord;
    assert e[26] == 0 && e[27] == 0 <==> LdWord(e, 26) == 0 by { LittleEndian(e, 26); }
    Places(e);
    hide CharOf;
  }

  lemma Places(e: Entry)
    ensures CharOf(e, 0) == LdWord(e, 1) && CharOf(e, 1) == LdWord(e, 3) && CharOf(e, 2) == LdWord(e, 5)
    ensures CharOf(e, 3) == LdWord(e, 7) && CharOf(e, 4) == LdWord(e, 9) && CharOf(e, 5) == LdWord(e, 14)
    ensures CharOf(e, 6) == LdWord(e, 16) && CharOf(e, 7) == LdWord(e, 18) && CharOf(e, 8) == LdWord(e, 20)
    ensures CharOf(e, 9) == LdWord(e, 22) && CharOf(e, 10) == LdWord(e, 24)
    ensures CharOf(e, 11) == LdWord(e, 28) && CharOf(e, 12) == LdWord(e, 30)
  {
    hide LdWord;
  }

  /** The checksum of a short name: for each of its eleven bytes the sum's bits are rotated to
      the right by one place, and the byte is added. */
  lemma SumBits(e: Entry, n: nat) returns (rotated: byte)
    requires n < 11
    ensures SumFrom(e, 0) == 0 && SumSfn(e) == SumFrom(e, 11)
    ensures rotated as nat % 0x80 == SumFrom(e, n) as nat / 2 && rotated as nat / 0x80 == SumFrom(e, n) as nat % 2
    ensures SumFrom(e, n + 1) as nat == (rotated as nat + e[n] as nat) % 0x100
  {
    var s := SumFrom(e, n) as nat;
    rotated := s / 2 + s % 2 * 0x80;
  }
}
