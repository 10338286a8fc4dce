/** What the scans of a directory answer, told by the entries alone. */
module Lookup {
  import opened Bytes
  import opened Lfn
  import opened LfnScan
  import opened LfnSound
  import opened LfnText

  /** An entry of a long name. */
  predicate LongEntry(e: Entry)
  {
    e[0] != 0 && e[0] != 0xE5 && e[11] as nat % 0x40 == 0x0F
  }

  /** The short entry of a file or directory: neither free nor a label nor of a long name. */
  predicate ShortEntry(e: Entry)
  {
    e[0] != 0 && e[0] != 0xE5 && e[11] as nat / 8 % 2 == 0
  }

  // ----- dir_find

  /** A complete long name that matches the buffer stands directly in front of entry i, tied to
      it by the checksum. */
  ghost predicate LongMatch(up: nat -> nat, buf: seq<nat>, es: seq<Entry>, i: nat)
    requires |buf| > MAX_LFN
  {
    i < |es| && exists b: nat :: Run(up, buf, es, b, i, 0, SumSfn(es[i]))
  }

  /** Entry i has the sought short name, and NS_LOSS is clear. */
  predicate ShortMatch(fn: seq<byte>, es: seq<Entry>, i: nat)
    requires |fn| == 12
  {
    i < |es| && ShortEntry(es[i]) && fn[11] as nat % 2 == 0 && es[i][..11] == fn[..11]
  }

  /** Entry i is what is sought: by its short name, or by a long name unless NS_NOLFN is set. */
  ghost predicate Matches(up: nat -> nat, buf: seq<nat>, fn: seq<byte>, es: seq<Entry>, i: nat)
    requires |buf| > MAX_LFN && |fn| == 12
  {
    && i < |es| && ShortEntry(es[i])
    && (ShortMatch(fn, es, i) || (fn[11] as nat / 0x40 % 2 == 0 && LongMatch(up, buf, es, i)))
  }

  /** A long name starts at entry b and goes on up to entry i. */
  predicate NameStart(es: seq<Entry>, b: nat, i: nat)
  {
    && b < i <= |es| && LongEntry(es[b]) && es[b][0] as nat / 0x40 % 2 == 1
    && forall j :: b < j < i ==> LongEntry(es[j]) && es[j][0] as nat / 0x40 % 2 == 0
  }

  /** blk is the place of the long name in front of entry i, whatever it holds, or says that
      there is none. */
  ghost predicate Located(es: seq<Entry>, i: nat, blk: nat)
  {
    || (blk == 0xFFFF_FFFF && forall b: nat :: !NameStart(es, b, i))
    || exists b: nat :: NameStart(es, b, i) && blk == 32 * b
  }

  /** A run under way in front of entry i determines the state of the scan. */
  ghost predicate Ready(up: nat -> nat, buf: seq<nat>, es: seq<Entry>, i: nat, st: FindState)
    requires |buf| > MAX_LFN
  {
    forall b: nat, r: nat, sum: byte :: Run(up, buf, es, b, i, r, sum) ==> st.ord == r && st.sum == sum
  }

  /** What the scan knows in front of entry i. */
  ghost predicate Knows(up: nat -> nat, q: Sought, es: seq<Entry>, i: nat, st: FindState)
    requires |q.buf| > MAX_LFN
  {
    if q.noLfn then st.ord == LOST && st.blk == NO_LFN
    else Located(es, i, st.blk) && Tracked(up, q.buf, es, i, 0, st) && Ready(up, q.buf, es, i, st)
  }

  lemma LastOfRun(up: nat -> nat, buf: seq<nat>, es: seq<Entry>, b: nat, i: nat, r: nat, sum: byte)
    requires |buf| > MAX_LFN && Run(up, buf, es, b, i + 1, r, sum)
    ensures LongEntry(es[i]) && es[i][13] == sum && CmpOf(up, buf, es[i]) && Unflagged(es[i][0]) as nat == r + 1
    ensures b <= i && (b < i ==> Run(up, buf, es, b, i, r + 1, sum))
    ensures b == i ==> IsLast(es[i])
  {
    CmpIs(up, buf, es[i]);
    hide CmpOf;
  }

  /** A matching entry carries a run on. */
  lemma StepReady(up: nat -> nat, q: Sought, es: seq<Entry>, i: nat, st: FindState)
    requires |q.buf| > MAX_LFN && !q.noLfn && i < |es| && Ready(up, q.buf, es, i, st)
    ensures var r := FindStep(up, q, es[i], i, st); r.Go? ==> Ready(up, q.buf, es, i + 1, r.st)
  {
    hide Run, CmpOf;
    var out := FindStep(up, q, es[i], i, st);
    var next := i + 1;
    if out.Go? {
      forall b: nat, r: nat, sum: byte | Run(up, q.buf, es, b, next, r, sum) ensures out.st.ord == r && out.st.sum == sum {
        LastOfRun(up, q.buf, es, b, i, r, sum);
      }
    }
  }

  /** A turn keeps the place of the long name. */
  lemma StepLocated(up: nat -> nat, q: Sought, es: seq<Entry>, i: nat, st: FindState)
    requires |q.buf| > MAX_LFN && !q.noLfn && i < |es| && Located(es, i, st.blk)
    ensures var r := FindStep(up, q, es[i], i, st); r.Go? ==> Located(es, i + 1, r.st.blk)
  {
    hide CmpOf;
    var r, next := FindStep(up, q, es[i], i, st), i + 1;
    if r.Go? {
      if !LongEntry(es[i]) {
        forall b: nat ensures !NameStart(es, b, next) {}
      } else if IsLast(es[i]) {
        assert NameStart(es, i, next);
      } else {
        forall b: nat ensures NameStart(es, b, i) <==> NameStart(es, b, next) {}
      }
    }
  }

  /** One turn of the loop of `dir_find`: it ends exactly at an end mark or a match. */
  lemma StepSays(up: nat -> nat, q: Sought, fn: seq<byte>, es: seq<Entry>, i: nat, st: FindState)
    requires |q.buf| > MAX_LFN && |fn| == 12 && q == SoughtIn(q.buf, fn) && i < |es| && Knows(up, q, es, i, st)
    ensures var r := FindStep(up, q, es[i], i, st);
      && (r.NotThere? <==> es[i][0] == 0)
      && (r.Go? ==> !Matches(up, q.buf, fn, es, i) && Knows(up, q, es, i + 1, r.st))
      && (r.ByLfn? ==> r.at == i && fn[11] as nat / 0x40 % 2 == 0 && ShortEntry(es[i]) && LongMatch(up, q.buf, es, i))
      && (r.BySfn? ==> r.at == i && ShortMatch(fn, es, i))
      && (Hit(r) ==> r.blk == st.blk)
  {
    hide Run, CmpOf, Located, Tracked, Ready, LongMatch, SumSfn, FindStep, ShortEntry;
    StepCases(up, q, fn, es[i], i, st);
    if !q.noLfn {
      StepLocated(up, q, es, i, st);
      TrackStep(up, q, es, i, 0, st);
      StepReady(up, q, es, i, st);
      OrdMeans(up, q.buf, es, i, st);
    }
  }

  /** What one turn makes of an end mark, a short entry and anything else. */
  lemma StepCases(up: nat -> nat, q: Sought, fn: seq<byte>, e: Entry, k: nat, st: FindState)
    requires |q.buf| > MAX_LFN && |fn| == 12 && q == SoughtIn(q.buf, fn)
    ensures var r := FindStep(up, q, e, k, st);
      && (r.NotThere? <==> e[0] == 0)
      && (ShortEntry(e) ==> e[0] != 0)
      && (ShortEntry(e) ==>
        r == if st.ord == 0 && st.sum == SumSfn(e) then ByLfn(k, st.blk)
             else if fn[11] as nat % 2 == 0 && e[..11] == fn[..11] then BySfn(k, st.blk)
             else Go(FindState(LOST, st.sum, NO_LFN)))
      && (!ShortEntry(e) && e[0] != 0 ==> r.Go?)
      && (r.Go? && q.noLfn && st.ord == LOST && st.blk == NO_LFN ==> r.st.ord == LOST && r.st.blk == NO_LFN)
  {
    hide CmpOf, SumSfn, Attr;
    VolumeBit(e);
  }

  lemma VolumeBit(e: Entry)
    ensures Attr(e) / 8 % 2 == e[11] as nat / 8 % 2 && (Attr(e) == 0x0F ==> e[11] as nat / 8 % 2 == 1)
  {
    var x := e[11] as nat;
    assert x == x / 0x40 * 0x40 + x % 0x40;
  }

  /** The scan stands behind a complete long name tied to entry i exactly if there is one. */
  lemma OrdMeans(up: nat -> nat, buf: seq<nat>, es: seq<Entry>, i: nat, st: FindState)
    requires |buf| > MAX_LFN && i < |es| && Tracked(up, buf, es, i, 0, st) && Ready(up, buf, es, i, st)
    ensures st.ord == 0 && st.sum == SumSfn(es[i]) <==> LongMatch(up, buf, es, i)
  {
    hide Run;
  }

  predicate Hit(r: FindOut)
  {
    r.ByLfn? || r.BySfn?
  }

  /** Entry at is the first match from entry i on, and no end mark stands in front of it. */
  ghost predicate FirstMatch(up: nat -> nat, buf: seq<nat>, fn: seq<byte>, es: seq<Entry>, i: nat, at: nat)
    requires |buf| > MAX_LFN && |fn| == 12
  {
    && i <= at && Matches(up, buf, fn, es, at)
    && forall j :: i <= j < at ==> es[j][0] != 0 && !Matches(up, buf, fn, es, j)
  }

  lemma {:induction false} ScanSays(up: nat -> nat, q: Sought, fn: seq<byte>, es: seq<Entry>, i: nat, st: FindState)
    requires |q.buf| > MAX_LFN && |fn| == 12 && q == SoughtIn(q.buf, fn) && i <= |es| && Knows(up, q, es, i, st)
    ensures var r := FindScan(up, q, es[i..], i, st);
      && (Hit(r) ==> FirstMatch(up, q.buf, fn, es, i, r.at))
      && (r.BySfn? ==> ShortMatch(fn, es, r.at))
      && (r.ByLfn? ==> LongMatch(up, q.buf, es, r.at))
      && (Hit(r) ==> if q.noLfn then r.blk == 0xFFFF_FFFF else Located(es, r.at, r.blk))
      && (!Hit(r) ==> forall at: nat :: i <= at && Matches(up, q.buf, fn, es, at) ==> exists j :: i <= j < at && es[j][0] == 0)
    decreases |es| - i
  {
    hide Matches, Ready, Tracked, Located, FindStep, SoughtIn, ShortMatch, ShortEntry, LongMatch;
    if i < |es| {
      assert es[i..][0] == es[i] && es[i..][1..] == es[i + 1..];
      StepSays(up, q, fn, es, i, st);
      var r := FindStep(up, q, es[i], i, st);
      MatchIs(up, q.buf, fn, es, i);
      if r.Go? { ScanSays(up, q, fn, es, i + 1, r.st); }
    } else {
      forall at: nat | i <= at ensures !Matches(up, q.buf, fn, es, at) { MatchIs(up, q.buf, fn, es, at); }
    }
  }

  lemma MatchIs(up: nat -> nat, buf: seq<nat>, fn: seq<byte>, es: seq<Entry>, i: nat)
    requires |buf| > MAX_LFN && |fn| == 12
    ensures Matches(up, buf, fn, es, i) ==> i < |es| && es[i][0] != 0
    ensures ShortMatch(fn, es, i) ==> Matches(up, buf, fn, es, i)
    ensures i < |es| && ShortEntry(es[i]) && fn[11] as nat / 0x40 % 2 == 0 && LongMatch(up, buf, es, i) ==> Matches(up, buf, fn, es, i)
  {
  }

  /** dir_find answers with the first entry that matches, by its short name or by a complete
      long name in front of it; it finds nothing exactly if every match lies behind an end
      mark. */
  lemma FindIsFirst(up: nat -> nat, buf: seq<nat>, fn: seq<byte>, es: seq<Entry>)
    requires |buf| > MAX_LFN && |fn| == 12
    ensures var r := FindScan(up, SoughtIn(buf, fn), es, 0, FIND_START);
      && (Hit(r) ==> FirstMatch(up, buf, fn, es, 0, r.at))
      && (r.BySfn? ==> ShortMatch(fn, es, r.at))
      && (r.ByLfn? ==> LongMatch(up, buf, es, r.at))
      && (Hit(r) ==> if fn[11] as nat / 0x40 % 2 == 1 then r.blk == 0xFFFF_FFFF else Located(es, r.at, r.blk))
      && (!Hit(r) ==> forall at: nat :: Matches(up, buf, fn, es, at) ==> exists j :: 0 <= j < at && es[j][0] == 0)
    ensures var r := FindScan(up, SoughtIn(buf, fn), es, 0, FIND_START);
      Hit(r) ==>
        && r.at < |es| && es[r.at][0] != 0 && es[r.at][0] != 0xE5 && es[r.at][11] as nat / 8 % 2 == 0
        && ((fn[11] as nat % 2 == 0 && es[r.at][..11] == fn[..11]) || LongMatch(up, buf, es, r.at))
        && (fn[11] as nat / 0x40 % 2 == 1 ==> fn[11] as nat % 2 == 0 && es[r.at][..11] == fn[..11])
        && forall j :: 0 <= j < r.at ==>
            && es[j][0] != 0
            && (es[j][0] == 0xE5 || es[j][11] as nat / 8 % 2 == 1
                || ((fn[11] as nat % 2 == 1 || es[j][..11] != fn[..11])
                    && (fn[11] as nat / 0x40 % 2 == 1 || !LongMatch(up, buf, es, j))))
    ensures var r := FindScan(up, SoughtIn(buf, fn), es, 0, FIND_START);
      !Hit(r) && fn[11] as nat % 2 == 0 ==>
        forall i :: 0 <= i < |es| && es[i][0] != 0 && es[i][0] != 0xE5 && es[i][11] as nat / 8 % 2 == 0 && es[i][..11] == fn[..11] ==>
          exists j :: 0 <= j < i && es[j][0] == 0
  {
    hide FindScan, LongMatch, Ready, Located;
    forall i | 0 <= i < |es| && es[i][0] != 0 && es[i][0] != 0xE5 && es[i][11] as nat / 8 % 2 == 0
      && es[i][..11] == fn[..11] && fn[11] as nat % 2 == 0
      ensures Matches(up, buf, fn, es, i) {}
    assert es[0..] == es;
    NoRun(up, buf, es);
    ScanSays(up, SoughtIn(buf, fn), fn, es, 0, FIND_START);
  }

  lemma NoRun(up: nat -> nat, buf: seq<nat>, es: seq<Entry>)
    requires |buf| > MAX_LFN
    ensures Ready(up, buf, es, 0, FIND_START) && Located(es, 0, NO_LFN)
  {
    forall b: nat, r: nat, sum: byte ensures !Run(up, buf, es, b, 0, r, sum) {}
  }

  lemma RunBehind(up: nat -> nat, buf: seq<nat>, es: seq<Entry>, b: nat, i: nat, sum: byte)
    requires |buf| > MAX_LFN
    ensures Run(up, buf, es, b, i, 0, sum) ==> 0 < i <= |es| && LongEntry(es[i - 1])
  {
    if 0 < i <= |es| { CmpIs(up, buf, es[i - 1]); }
    hide CmpOf, Tidy, Width, CountFrom;
  }

  /** Without a long name entry directly in front, an entry has no long name. */
  lemma Alone(up: nat -> nat, buf: seq<nat>, es: seq<Entry>, i: nat, blk: nat)
    requires |buf| > MAX_LFN && i < |es| && (i == 0 || !LongEntry(es[i - 1]))
    ensures !LongMatch(up, buf, es, i) && (Located(es, i, blk) ==> blk == 0xFFFF_FFFF)
  {
    forall b: nat ensures !NameStart(es, b, i) {}
    forall b: nat ensures !Run(up, buf, es, b, i, 0, SumSfn(es[i])) { RunBehind(up, buf, es, b, i, SumSfn(es[i])); }
  }
}
