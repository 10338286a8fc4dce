/** What dir_read answers, told by the entries alone: the next file or directory, and the long
    name of a complete run of entries in front of it. */
module ReadLook {
  import opened Bytes
  import opened Lfn
  import opened LfnScan
  import opened LfnSound
  import opened LfnText
  import opened Lookup

  /** A file or directory: not free, not a dot entry, no long name entry, and no volume label
      with or without the archive bit. */
  predicate ObjectEntry(e: Entry)
  {
    && e[0] != 0 && e[0] != 0xE5 && e[0] != 0x2E
    && e[11] as nat % 0x40 != 0x0F && e[11] as nat % 0x40 != 0x08 && e[11] as nat % 0x40 != 0x28
  }

  /** Entry at is the first object from entry k on, and no end mark stands in front of it. */
  predicate FirstObject(es: seq<Entry>, k: nat, at: nat)
  {
    && k <= at < |es| && ObjectEntry(es[at])
    && forall j :: k <= j < at ==> es[j][0] != 0 && !ObjectEntry(es[j])
  }

  /** The number of a long name entry. */
  function Number(e: Entry): nat
  {
    e[0] as nat % 0x40
  }

  /** The entries es[b..i] are the pieces n .. r + 1 of a long name with one checksum, the first
      of them marked as the last piece. */
  ghost predicate NameRun(es: seq<Entry>, b: nat, i: nat, r: nat, sum: byte)
  {
    && b < i <= |es| && es[b][0] >= 0x40
    && forall j :: b <= j < i ==>
        LongEntry(es[j]) && GoodPiece(es[j]) && es[j][13] == sum && Number(es[j]) == r + (i - j)
  }

  /** The buffer holds the characters of the run where they belong, and the NUL behind them. */
  ghost predicate Wrote(es: seq<Entry>, b: nat, i: nat, buf: seq<nat>)
  {
    && b < i <= |es| && |buf| > MAX_LFN
    && (forall j, u :: b <= j < i && 0 <= u < Width(es[j]) ==> HasChar(buf, es[j], u))
    && HasNul(buf, es[b])
  }

  predicate HasChar(buf: seq<nat>, e: Entry, u: nat)
  {
    u < 13 && Number(e) >= 1 && (Number(e) - 1) * 13 + u < |buf| && buf[(Number(e) - 1) * 13 + u] == CharOf(e, u)
  }

  predicate HasNul(buf: seq<nat>, e: Entry)
  {
    Number(e) >= 1 && (Number(e) - 1) * 13 + Width(e) < |buf| && buf[(Number(e) - 1) * 13 + Width(e)] == 0
  }

  /** The run at b is under way and read. */
  ghost predicate Reading(es: seq<Entry>, k: nat, b: nat, i: nat, st: ReadState)
  {
    k <= b && NameRun(es, b, i, st.ord, st.sum) && st.blk == 32 * b && Wrote(es, b, i, st.buf)
  }

  /** Any run under way in front of entry i determines the state of the scan. */
  ghost predicate Bound(es: seq<Entry>, k: nat, i: nat, st: ReadState)
  {
    forall b: nat, r: nat, sum: byte :: k <= b && NameRun(es, b, i, r, sum) ==> st.ord == r && st.sum == sum
  }

  ghost predicate ReadKnows(es: seq<Entry>, k: nat, i: nat, st: ReadState)
  {
    (st.ord == LOST || exists b: nat :: Reading(es, k, b, i, st)) && Bound(es, k, i, st)
  }

  lemma LastPieceOf(es: seq<Entry>, b: nat, i: nat, r: nat, sum: byte)
    requires NameRun(es, b, i + 1, r, sum)
    ensures LongEntry(es[i]) && GoodPiece(es[i]) && es[i][13] == sum && Number(es[i]) == r + 1
    ensures b <= i && (b < i ==> NameRun(es, b, i, r + 1, sum)) && (b == i ==> es[i][0] >= 0x40)
  {
    hide GoodPiece, LongEntry;
  }

  /** What one turn makes of a long name entry. */
  lemma TurnOnPiece(e: Entry, i: nat, st: ReadState)
    requires |st.buf| > MAX_LFN && LongEntry(e) && GoodPiece(e) && (e[0] >= 0x40 || (st.ord == Number(e) && st.sum == e[13]))
    ensures ReadStep(e, i, st) ==
      More(ReadState(Number(e) - 1, e[13], PickOf(st.buf, e).1, if e[0] >= 0x40 then i * 32 else st.blk))
  {
    PickIs(st.buf, e);
    NumberOf(e[0]);
    hide PickOf, Tidy, Width;
  }

  /** Otherwise no name is under way behind the entry. */
  lemma TurnOffPiece(e: Entry, i: nat, st: ReadState)
    requires |st.buf| > MAX_LFN && ReadStep(e, i, st).More?
    ensures ReadStep(e, i, st).st.ord == LOST
      || (LongEntry(e) && GoodPiece(e) && (e[0] >= 0x40 || (st.ord == Number(e) && st.sum == e[13])))
  {
    PickIs(st.buf, e);
    NumberOf(e[0]);
    hide PickOf, Tidy, Width;
  }

  /** Picking a piece puts its characters in place. */
  lemma PickWrites(buf: seq<nat>, e: Entry, u: nat)
    requires |buf| > MAX_LFN && GoodPiece(e)
    ensures |PickOf(buf, e).1| == |buf|
    ensures u < Width(e) ==> HasChar(PickOf(buf, e).1, e, u)
    ensures e[0] >= 0x40 ==> HasNul(PickOf(buf, e).1, e)
  {
    PickIs(buf, e);
    hide PickOf, Width, CharOf, Tidy;
  }

  /** It keeps what lies at or behind its 13 places. */
  lemma PickKeeps(buf: seq<nat>, e: Entry, p: nat)
    requires |buf| > MAX_LFN && GoodPiece(e) && e[0] < 0x40 && Number(e) * 13 <= p < |buf|
    ensures PickOf(buf, e).1[p] == buf[p]
  {
    PickIs(buf, e);
    hide PickOf, CharOf, Tidy;
  }

  lemma RunBegins(es: seq<Entry>, i: nat)
    requires i < |es| && LongEntry(es[i]) && GoodPiece(es[i]) && es[i][0] >= 0x40
    ensures NameRun(es, i, i + 1, Number(es[i]) - 1, es[i][13])
  {
    hide GoodPiece, LongEntry;
    assert Number(es[i]) >= 1 by { NumberUsed(es[i]); }
  }

  lemma NumberUsed(e: Entry)
    requires GoodPiece(e)
    ensures 1 <= Number(e) <= 20
  {
  }

  lemma RunContinues(es: seq<Entry>, b: nat, i: nat, r: nat, sum: byte)
    requires NameRun(es, b, i, r + 1, sum) && i < |es| && LongEntry(es[i]) && GoodPiece(es[i])
    requires es[i][13] == sum && Number(es[i]) == r + 1
    ensures NameRun(es, b, i + 1, r, sum)
  {
    hide GoodPiece, LongEntry;
  }

  lemma WroteFirst(es: seq<Entry>, i: nat, buf: seq<nat>)
    requires i < |es| && |buf| > MAX_LFN && GoodPiece(es[i]) && es[i][0] >= 0x40
    ensures Wrote(es, i, i + 1, PickOf(buf, es[i]).1)
  {
    hide GoodPiece, PickOf, HasChar, HasNul;
    forall u: nat ensures u < Width(es[i]) ==> HasChar(PickOf(buf, es[i]).1, es[i], u) { PickWrites(buf, es[i], u); }
    PickWrites(buf, es[i], 0);
  }

  lemma WroteNext(es: seq<Entry>, b: nat, i: nat, r: nat, sum: byte, buf: seq<nat>)
    requires NameRun(es, b, i, r + 1, sum) && Wrote(es, b, i, buf)
    requires i < |es| && GoodPiece(es[i]) && es[i][0] < 0x40 && Number(es[i]) == r + 1
    ensures Wrote(es, b, i + 1, PickOf(buf, es[i]).1)
  {
    hide GoodPiece, PickOf, Width, LongEntry, CharOf;
    var out := PickOf(buf, es[i]).1;
    forall p: nat | (r + 1) * 13 <= p < |buf| ensures out[p] == buf[p] { PickKeeps(buf, es[i], p); }
    PickWrites(buf, es[i], 0);
    forall j, u | b <= j < i + 1 && 0 <= u < Width(es[j]) ensures HasChar(out, es[j], u) {
      if j == i {
        PickWrites(buf, es[i], u);
      } else {
        assert HasChar(buf, es[j], u) && Number(es[j]) >= r + 2;
      }
    }
    assert HasNul(buf, es[b]) && Number(es[b]) >= r + 2;
  }

  /** One turn keeps what the scan knows. */
  lemma TurnKnows(es: seq<Entry>, k: nat, i: nat, st: ReadState)
    requires |st.buf| > MAX_LFN && k <= i < |es| && ReadKnows(es, k, i, st)
    ensures var r := ReadStep(es[i], i, st); r.More? ==> ReadKnows(es, k, i + 1, r.st)
  {
    hide ReadStep, GoodPiece, LongEntry, NameRun, Wrote, Number;
    var out, next := ReadStep(es[i], i, st), i + 1;
    if out.More? {
      TurnOffPiece(es[i], i, st);
      forall b: nat, r: nat, sum: byte | k <= b && NameRun(es, b, next, r, sum) ensures out.st.ord == r && out.st.sum == sum {
        LastPieceOf(es, b, i, r, sum);
        TurnOnPiece(es[i], i, st);
      }
      if out.st.ord != LOST {
        var e := es[i];
        TurnOnPiece(e, i, st);
        NumberUsed(e);
        if e[0] >= 0x40 {
          RunBegins(es, i);
          WroteFirst(es, i, st.buf);
          assert Reading(es, k, i, next, out.st);
        } else {
          var b: nat :| Reading(es, k, b, i, st);
          RunContinues(es, b, i, out.st.ord, st.sum);
          WroteNext(es, b, i, out.st.ord, st.sum, st.buf);
          assert Reading(es, k, b, next, out.st);
        }
      }
    }
  }

  /** A complete run stands directly in front of entry at and is tied to it by the checksum. */
  ghost predicate Complete(es: seq<Entry>, k: nat, b: nat, at: nat)
  {
    at < |es| && k <= b && NameRun(es, b, at, 0, SumSfn(es[at]))
  }

  /** blk and the buffer give the long name of entry at: the place of the run and its text. */
  ghost predicate NameRead(es: seq<Entry>, k: nat, at: nat, blk: nat, buf: seq<nat>)
  {
    exists b: nat, name :: Complete(es, k, b, at) && blk == 32 * b && Spells(es, b, at, name) && HoldsText(buf, name)
  }

  /** The buffer holds the text, with a NUL behind it. */
  ghost predicate HoldsText(buf: seq<nat>, name: seq<nat>)
  {
    |name| < |buf| && buf[..|name|] == name && buf[|name|] == 0
  }

  /** One turn: it ends exactly at an end mark or an object. */
  lemma TurnSays(es: seq<Entry>, k: nat, i: nat, st: ReadState)
    requires |st.buf| > MAX_LFN && k <= i < |es| && ReadKnows(es, k, i, st)
    ensures var r := ReadStep(es[i], i, st);
      && (r.EndOfDir? <==> es[i][0] == 0)
      && (r.Found? <==> ObjectEntry(es[i]))
      && (r.Found? ==> r.at == i)
      && (r.Found? && (exists b: nat :: Complete(es, k, b, i)) ==> NameRead(es, k, i, r.blk, r.buf))
      && (r.Found? && (forall b: nat :: !Complete(es, k, b, i)) ==> r.blk == 0xFFFF_FFFF)
  {
    hide GoodPiece, LongEntry, NameRun, Wrote, Number, PickOf, Spells, HoldsText;
    var r := ReadStep(es[i], i, st);
    if r.Found? && exists b: nat :: Complete(es, k, b, i) {
      var c: nat :| Complete(es, k, c, i);
      var b: nat :| Reading(es, k, b, i, st);
      var name := RunText(es, b, i, st.sum, st.buf);
      assert Complete(es, k, b, i);
    } else if st.ord == 0 && st.sum == SumSfn(es[i]) {
      var b: nat :| Reading(es, k, b, i, st);
      assert Complete(es, k, b, i);
    }
  }

  /** Reading off the text of a complete run. */
  lemma RunText(es: seq<Entry>, b: nat, i: nat, sum: byte, buf: seq<nat>) returns (name: seq<nat>)
    requires NameRun(es, b, i, 0, sum) && Wrote(es, b, i, buf)
    ensures Spells(es, b, i, name) && HoldsText(buf, name)
  {
    hide NameRun, Wrote, Spelled;
    assert b < i <= |es| by { Sized(es, b, i, sum, buf); }
    name := TextOf(es, b, i);
    forall p | 0 <= p < |name| ensures p < |buf| && buf[p] == name[p] { TextAt(es, b, i, sum, buf, p); }
    if |name| < (i - b) * 13 {
      TextAt(es, b, i, sum, buf, |name|);
    } else {
      TextEnds(es, b, i, sum, buf);
    }
  }

  lemma Sized(es: seq<Entry>, b: nat, i: nat, sum: byte, buf: seq<nat>)
    requires NameRun(es, b, i, 0, sum) && Wrote(es, b, i, buf)
    ensures b < i <= |es| && |buf| > MAX_LFN && HasNul(buf, es[b]) && Number(es[b]) == i - b
  {
  }

  /** Character p of the run, if no NUL stands in front of it. */
  lemma TextAt(es: seq<Entry>, b: nat, i: nat, sum: byte, buf: seq<nat>, p: nat)
    requires NameRun(es, b, i, 0, sum) && Wrote(es, b, i, buf) && b < i <= |es| && p < (i - b) * 13
    requires forall u :: 0 <= u < p ==> Spelled(es, b, i, u) != 0
    ensures p < |buf| && buf[p] == Spelled(es, b, i, p)
  {
    hide CharOf, Spelled, GoodPiece, LongEntry, CountFrom;
    var m, s := p / 13, p % 13;
    assert p == m * 13 + s && m < i - b;
    var j := i - 1 - m;
    SpelledAt(es, b, i, m, s);
    forall u | 0 <= u < s ensures CharOf(es[j], u) != 0 { SpelledAt(es, b, i, m, u); }
    assert s < Width(es[j]);
    assert HasChar(buf, es[j], s);
  }

  /** Without a NUL in the run the buffer ends behind it. */
  lemma TextEnds(es: seq<Entry>, b: nat, i: nat, sum: byte, buf: seq<nat>)
    requires NameRun(es, b, i, 0, sum) && Wrote(es, b, i, buf) && b < i <= |es|
    requires forall u :: 0 <= u < (i - b) * 13 ==> Spelled(es, b, i, u) != 0
    ensures (i - b) * 13 < |buf| && buf[(i - b) * 13] == 0
  {
    hide CharOf, Spelled, NameRun, Wrote, CountFrom;
    Sized(es, b, i, sum, buf);
    forall u | 0 <= u < 13 ensures CharOf(es[b], u) != 0 { SpelledAt(es, b, i, i - b - 1, u); }
    assert Count(es[b]) == 13;
  }

  lemma {:induction false} ScanReads(es: seq<Entry>, k: nat, i: nat, st: ReadState)
    requires |st.buf| > MAX_LFN && k <= i <= |es| && ReadKnows(es, k, i, st)
    ensures var r := ReadScan(es[i..], i, st);
      && (r.Found? ==> FirstObject(es, i, r.at))
      && (r.Found? && (exists b: nat :: Complete(es, k, b, r.at)) ==> NameRead(es, k, r.at, r.blk, r.buf))
      && (r.Found? && (forall b: nat :: !Complete(es, k, b, r.at)) ==> r.blk == 0xFFFF_FFFF)
      && (!r.Found? ==> forall at: nat :: i <= at < |es| && ObjectEntry(es[at]) ==> exists j :: i <= j < at && es[j][0] == 0)
    decreases |es| - i
  {
    hide ReadStep, ObjectEntry, Complete, NameRead, ReadKnows;
    if i < |es| {
      assert es[i..][0] == es[i] && es[i..][1..] == es[i + 1..];
      TurnSays(es, k, i, st);
      TurnKnows(es, k, i, st);
      ObjectIsUsed(es[i]);
      var r := ReadStep(es[i], i, st);
      if r.More? { ScanReads(es, k, i + 1, r.st); }
    }
  }

  lemma ObjectIsUsed(e: Entry)
    ensures ObjectEntry(e) ==> e[0] != 0
  {
  }

  /** dir_read from entry k stops at the first file or directory from there on; it finds
      nothing exactly if every one lies behind an end mark. A long name is reported exactly if
      a complete run of good pieces stands in front of the entry, and then it is the text of
      that run. */
  lemma ReadIsFirst(es: seq<Entry>, k: nat, buf: seq<nat>, blk: nat)
    requires |buf| > MAX_LFN && k <= |es|
    ensures var r := ReadScan(es[k..], k, ReadState(LOST, 0xFF, buf, blk));
      r.Found? ==>
        && k <= r.at < |es| && es[r.at][0] != 0 && es[r.at][0] != 0xE5 && es[r.at][0] != 0x2E
        && es[r.at][11] as nat % 0x40 != 0x0F && es[r.at][11] as nat % 0x40 != 0x08 && es[r.at][11] as nat % 0x40 != 0x28
        && forall j :: k <= j < r.at ==>
            && es[j][0] != 0
            && (es[j][0] == 0xE5 || es[j][0] == 0x2E
                || es[j][11] as nat % 0x40 == 0x0F || es[j][11] as nat % 0x40 == 0x08 || es[j][11] as nat % 0x40 == 0x28)
    ensures var r := ReadScan(es[k..], k, ReadState(LOST, 0xFF, buf, blk));
      && (r.Found? ==> FirstObject(es, k, r.at))
      && (r.Found? && (exists b: nat :: Complete(es, k, b, r.at)) ==> NameRead(es, k, r.at, r.blk, r.buf))
      && (r.Found? && (forall b: nat :: !Complete(es, k, b, r.at)) ==> r.blk == 0xFFFF_FFFF)
      && (!r.Found? ==> forall at: nat :: k <= at < |es| && ObjectEntry(es[at]) ==> exists j :: k <= j < at && es[j][0] == 0)
  {
    hide ReadScan, Complete, NameRead;
    forall b: nat, r: nat, sum: byte ensures !(k <= b && NameRun(es, b, k, r, sum)) {}
    ScanReads(es, k, k, ReadState(LOST, 0xFF, buf, blk));
  }

  /** Without a long name entry directly in front there is no run. */
  lemma AloneHasNone(es: seq<Entry>, k: nat, at: nat)
    requires k <= at < |es| && (at == k || !LongEntry(es[at - 1]))
    ensures forall b: nat :: !Complete(es, k, b, at)
  {
    hide GoodPiece;
  }
}
