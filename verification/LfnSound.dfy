/** Whatever a directory holds, a hit of `dir_find` through a long name is a run of entries
    that spells the sought name. */
module LfnSound {
  import opened Bytes
  import opened Lfn
  import opened LfnScan

  /** The entries es[b..i] are the pieces n .. r + 1 of a long name, n == r + (i - b), with
      one checksum, each of them matching the buffer. */
  ghost predicate Run(up: nat -> nat, buf: seq<nat>, es: seq<Entry>, b: nat, i: nat, r: nat, sum: byte)
    requires |buf| > MAX_LFN
  {
    && b < i <= |es| && IsLast(es[b])
    && forall j :: b <= j < i ==>
        && Attr(es[j]) == AM_LFN as nat && es[j][13] == sum && CmpOf(up, buf, es[j])
        && Unflagged(es[j][0]) as nat == r + (i - j)
  }

  /** What the scan knows in front of entry i. */
  ghost predicate Tracked(up: nat -> nat, buf: seq<nat>, es: seq<Entry>, i: nat, k: nat, st: FindState)
    requires |buf| > MAX_LFN
  {
    st.ord == LOST || exists b: nat :: Run(up, buf, es, b, i, st.ord, st.sum) && st.blk == (k + b) * 32
  }

  /** How a turn of the scan gets or keeps a run going. */
  lemma StepOrd(up: nat -> nat, q: Sought, e: Entry, k: nat, st: FindState)
    requires |q.buf| > MAX_LFN && !q.noLfn
    ensures var r := FindStep(up, q, e, k, st);
      && (r.Go? && r.st.ord != LOST ==>
        && Attr(e) == AM_LFN as nat && CmpOf(up, q.buf, e) && e[13] == r.st.sum && Unflagged(e[0]) as nat == r.st.ord + 1
        && (IsLast(e) ==> r.st.blk == k * 32)
        && (!IsLast(e) ==> st.ord == r.st.ord + 1 && st.sum == r.st.sum && st.blk == r.st.blk))
      && (r.ByLfn? ==> st.ord == 0 && st.sum == SumSfn(e) && r == ByLfn(k, st.blk))
  {
    hide CmpOf;
  }

  lemma RunStarts(up: nat -> nat, buf: seq<nat>, es: seq<Entry>, i: nat, r: nat, sum: byte)
    requires |buf| > MAX_LFN && i < |es| && IsLast(es[i]) && Attr(es[i]) == AM_LFN as nat && es[i][13] == sum
    requires CmpOf(up, buf, es[i]) && Unflagged(es[i][0]) as nat == r + 1
    ensures Run(up, buf, es, i, i + 1, r, sum)
  {
    hide CmpOf;
  }

  lemma RunGoesOn(up: nat -> nat, buf: seq<nat>, es: seq<Entry>, b: nat, i: nat, r: nat, sum: byte)
    requires |buf| > MAX_LFN && i < |es| && Run(up, buf, es, b, i, r + 1, sum) && Attr(es[i]) == AM_LFN as nat && es[i][13] == sum
    requires CmpOf(up, buf, es[i]) && Unflagged(es[i][0]) as nat == r + 1
    ensures Run(up, buf, es, b, i + 1, r, sum)
  {
    hide CmpOf;
  }

  /** One turn keeps track of the run. */
  lemma TrackStep(up: nat -> nat, q: Sought, es: seq<Entry>, i: nat, k: nat, st: FindState)
    requires |q.buf| > MAX_LFN && !q.noLfn && i < |es| && Tracked(up, q.buf, es, i, k, st)
    ensures var r := FindStep(up, q, es[i], k + i, st);
      r.Go? ==> Tracked(up, q.buf, es, i + 1, k, r.st)
  {
    hide FindStep, Run, CmpOf;
    StepOrd(up, q, es[i], k + i, st);
    var r := FindStep(up, q, es[i], k + i, st);
    if r.Go? && r.st.ord != LOST {
      if IsLast(es[i]) {
        RunStarts(up, q.buf, es, i, r.st.ord, r.st.sum);
      } else if st.ord != LOST {
        var b: nat :| Run(up, q.buf, es, b, i, st.ord, st.sum) && st.blk == (k + b) * 32;
        RunGoesOn(up, q.buf, es, b, i, r.st.ord, r.st.sum);
      } else {
        OrdSmall(es[i]);
      }
    }
  }

  lemma OrdSmall(e: Entry)
    ensures Unflagged(e[0]) as nat < LOST
  {
  }

  /** A hit through a long name at entry at: the pieces of the run that starts at entry b, down
      to number 1, directly in front of a short entry with their checksum. */
  ghost predicate HitRun(up: nat -> nat, buf: seq<nat>, es: seq<Entry>, k: nat, at: nat, blk: nat, b: nat)
    requires |buf| > MAX_LFN
  {
    k <= at < k + |es| && Run(up, buf, es, b, at - k, 0, SumSfn(es[at - k])) && blk == (k + b) * 32
  }

  lemma {:induction false} ScanHits(up: nat -> nat, q: Sought, es: seq<Entry>, i: nat, k: nat, st: FindState)
    requires |q.buf| > MAX_LFN && !q.noLfn && i <= |es| && Tracked(up, q.buf, es, i, k, st)
    ensures var r := FindScan(up, q, es[i..], k + i, st);
      r.ByLfn? ==> exists b: nat :: HitRun(up, q.buf, es, k, r.at, r.blk, b)
    decreases |es| - i
  {
    hide FindStep, Run, CmpOf;
    if i < |es| {
      assert es[i..][0] == es[i] && es[i..][1..] == es[i + 1..];
      StepOrd(up, q, es[i], k + i, st);
      TrackStep(up, q, es, i, k, st);
      var r := FindStep(up, q, es[i], k + i, st);
      if r.Go? {
        ScanHits(up, q, es, i + 1, k, r.st);
      } else if r.ByLfn? {
        var b: nat :| Run(up, q.buf, es, b, i, st.ord, st.sum) && st.blk == (k + b) * 32;
        assert HitRun(up, q.buf, es, k, r.at, r.blk, b);
      }
    }
  }

  // ----- what the run spells

  /** Character p of the name the run es[b..i] stores. */
  function Spelled(es: seq<Entry>, b: nat, i: nat, p: nat): nat
    requires b < i <= |es| && p < (i - b) * 13
  {
    CharOf(es[i - 1 - p / 13], p % 13)
  }

  /** name is what the run spells up to its first NUL. */
  ghost predicate Spells(es: seq<Entry>, b: nat, i: nat, name: seq<nat>)
  {
    && b < i <= |es| && |name| <= (i - b) * 13
    && (forall p :: 0 <= p < |name| ==> name[p] == Spelled(es, b, i, p) != 0)
    && (|name| < (i - b) * 13 ==> Spelled(es, b, i, |name|) == 0)
  }

  /** What a match of one entry says, whatever the entry holds: up to its first NUL the
      characters agree with the buffer. */
  lemma {:induction false} CmpSays(up: nat -> nat, buf: seq<nat>, e: Entry, base: nat, s: nat, t: nat)
    requires |buf| > MAX_LFN && t <= s <= 13 && (forall u :: 0 <= u < s ==> CharOf(e, u) != 0)
    requires CmpFrom(up, buf, e, base + t, if t == 0 then 1 else CharOf(e, t - 1), t).Compared?
    ensures s < 13 ==> base + s < MAX_LFN && up(CharOf(e, s)) == up(buf[base + s])
    ensures s == 13 ==>
      CmpFrom(up, buf, e, base + t, if t == 0 then 1 else CharOf(e, t - 1), t) == Compared(base + 13, CharOf(e, 12))
    decreases s - t
  {
    hide CharOf;
    if t < s { CmpSays(up, buf, e, base, s, t + 1); }
  }

  lemma OrdinalInRange(up: nat -> nat, buf: seq<nat>, e: Entry)
    requires |buf| > MAX_LFN && CmpOf(up, buf, e)
    ensures 1 <= e[0] as nat % 0x40 && PieceBase(e[0] as nat % 0x40) < MAX_LFN
  {
  }

  lemma Masks(x: byte)
    ensures Unflagged(x) as nat < 0x40 || 0x80 <= Unflagged(x) as nat < 0xC0
    ensures Unflagged(x) as nat < 0x40 ==> x as nat % 0x40 == Unflagged(x) as nat
    ensures Unflagged(x) as nat == 0x80 ==> x as nat % 0x40 == 0
  {
  }

  /** The ordinals of a complete run are small, so both ways of masking them agree. */
  lemma RunOrdinals(up: nat -> nat, buf: seq<nat>, es: seq<Entry>, b: nat, i: nat, sum: byte, j: nat)
    requires |buf| > MAX_LFN && Run(up, buf, es, b, i, 0, sum) && b <= j < i
    ensures CmpOf(up, buf, es[j]) && es[j][0] as nat % 0x40 == i - j && i - b <= 20
    ensures PieceBase(es[j][0] as nat % 0x40) == (i - j - 1) * 13
  {
    hide CmpOf, Unflagged;
    Masks(es[b][0]);
    Masks(es[j][0]);
    if i - b >= 0x80 {
      var m := i - 0x80;
      Masks(es[m][0]);
      OrdinalInRange(up, buf, es[m]);
      assert false;
    }
    OrdinalInRange(up, buf, es[b]);
  }

  /** One matching entry whose piece starts at base. */
  lemma EntrySays(up: nat -> nat, buf: seq<nat>, e: Entry, base: nat, s: nat)
    requires |buf| > MAX_LFN && CmpOf(up, buf, e) && PieceBase(e[0] as nat % 0x40) == base && s <= 13
    requires forall u :: 0 <= u < s ==> CharOf(e, u) != 0
    ensures s < 13 ==> base + s < MAX_LFN && up(CharOf(e, s)) == up(buf[base + s])
    ensures s == 13 && IsLast(e) && base + 13 < |buf| ==> buf[base + 13] == 0
  {
    hide CharOf, CmpFrom;
    CmpSays(up, buf, e, base, s, 0);
  }

  /** Character u of piece m + 1 of the run. */
  lemma SpelledAt(es: seq<Entry>, b: nat, i: nat, m: nat, u: nat)
    requires b < i <= |es| && m < i - b && u < 13
    ensures m * 13 + u < (i - b) * 13 && Spelled(es, b, i, m * 13 + u) == CharOf(es[i - 1 - m], u)
  {
    PositionOf(m, u);
  }

  lemma PositionOf(q: nat, u: nat)
    requires u < 13
    ensures (q * 13 + u) / 13 == q && (q * 13 + u) % 13 == u
  {
  }

  /** Up to its first NUL a piece of the run agrees with the buffer. */
  lemma PieceSays(up: nat -> nat, buf: seq<nat>, es: seq<Entry>, b: nat, i: nat, sum: byte, m: nat, s: nat)
    requires |buf| > MAX_LFN && Run(up, buf, es, b, i, 0, sum) && m < i - b && s <= 13
    requires forall u :: 0 <= u < m * 13 + s && u < (i - b) * 13 ==> Spelled(es, b, i, u) != 0
    ensures s < 13 ==> m * 13 + s < MAX_LFN && up(CharOf(es[i - 1 - m], s)) == up(buf[m * 13 + s])
    ensures s == 13 && m == i - b - 1 && m * 13 + 13 < |buf| ==> buf[m * 13 + 13] == 0
  {
    hide CmpOf, Run, IsLast, CharOf, Spelled, PieceBase;
    RunFits(up, buf, es, b, i, sum);
    var j := i - 1 - m;
    RunOrdinals(up, buf, es, b, i, sum, j);
    forall u | 0 <= u < s ensures CharOf(es[j], u) != 0 { SpelledAt(es, b, i, m, u); }
    EntrySays(up, buf, es[j], m * 13, s);
  }

  /** The run's characters, up to the first NUL, agree with the buffer. */
  lemma SpelledAgrees(up: nat -> nat, buf: seq<nat>, es: seq<Entry>, b: nat, i: nat, sum: byte, p: nat)
    requires |buf| > MAX_LFN && Run(up, buf, es, b, i, 0, sum) && b < i <= |es| && p < (i - b) * 13
    requires forall u :: 0 <= u < p ==> Spelled(es, b, i, u) != 0
    ensures p < MAX_LFN && up(Spelled(es, b, i, p)) == up(buf[p])
  {
    hide Run, CharOf;
    var m, s := p / 13, p % 13;
    assert p == m * 13 + s && m < i - b;
    PieceSays(up, buf, es, b, i, sum, m, s);
  }

  /** Without a NUL in the run the name ends behind it. */
  lemma EndsBehind(up: nat -> nat, buf: seq<nat>, es: seq<Entry>, b: nat, i: nat, sum: byte)
    requires |buf| > MAX_LFN && Run(up, buf, es, b, i, 0, sum) && b < i <= |es|
    requires forall u :: 0 <= u < (i - b) * 13 ==> Spelled(es, b, i, u) != 0
    ensures (i - b) * 13 <= MAX_LFN && buf[(i - b) * 13] == 0
  {
    hide Run, Spelled, CharOf;
    var m := i - b - 1;
    SpelledAgrees(up, buf, es, b, i, sum, m * 13 + 12);
    PieceSays(up, buf, es, b, i, sum, m, 13);
  }

  /** dir_find is sound for any directory: a hit through the long name at entry at is a run of
      entries in front of it whose NUL-terminated text is the sought name up to case. */
  lemma LfnHitIsSound(up: nat -> nat, q: Sought, es: seq<Entry>, k: nat, sought: seq<nat>)
    requires |q.buf| > MAX_LFN && !q.noLfn && Folds(up) && Names(q.buf, sought)
    requires FindScan(up, q, es, k, FindState(LOST, 0xFF, NO_LFN)).ByLfn?
    ensures var r := FindScan(up, q, es, k, FindState(LOST, 0xFF, NO_LFN));
      exists b: nat, name :: Sound(up, q, es, k, sought, r, b, name)
  {
    hide Run, FindStep, FindScan, Spells, SameName, Names, Folds;
    var st := FindState(LOST, 0xFF, NO_LFN);
    var r := FindScan(up, q, es, k, st);
    assert es[0..] == es;
    ScanHits(up, q, es, 0, k, st);
    var b: nat :| HitRun(up, q.buf, es, k, r.at, r.blk, b);
    var name := RunSpells(up, q.buf, es, b, r.at - k, SumSfn(es[r.at - k]), sought);
    assert Sound(up, q, es, k, sought, r, b, name);
  }

  /** The run at b spells a name that is the sought one. */
  ghost predicate Sound(up: nat -> nat, q: Sought, es: seq<Entry>, k: nat, sought: seq<nat>, r: FindOut, b: nat, name: seq<nat>)
    requires |q.buf| > MAX_LFN && r.ByLfn?
  {
    && HitRun(up, q.buf, es, k, r.at, r.blk, b) && Spells(es, b, r.at - k, name) && SameName(up, name, sought)
  }

  /** The text of a run that matches is the sought name. */
  lemma RunSpells(up: nat -> nat, buf: seq<nat>, es: seq<Entry>, b: nat, i: nat, sum: byte, sought: seq<nat>) returns (name: seq<nat>)
    requires |buf| > MAX_LFN && Folds(up) && Names(buf, sought) && Run(up, buf, es, b, i, 0, sum)
    ensures Spells(es, b, i, name) && SameName(up, name, sought)
  {
    hide Run, Names, Folds, SameName, Spelled;
    RunFits(up, buf, es, b, i, sum);
    name := TextOf(es, b, i);
    forall p | 0 <= p < |name| ensures p < MAX_LFN && up(name[p]) == up(buf[p]) {
      SpelledAgrees(up, buf, es, b, i, sum, p);
    }
    EndOfName(up, buf, es, b, i, sum, name);
    EndsTogether(up, buf, name, sought);
  }

  lemma EndOfName(up: nat -> nat, buf: seq<nat>, es: seq<Entry>, b: nat, i: nat, sum: byte, name: seq<nat>)
    requires |buf| > MAX_LFN && Folds(up) && Run(up, buf, es, b, i, 0, sum) && Spells(es, b, i, name)
    ensures |name| <= MAX_LFN && buf[|name|] == 0
  {
    hide Run, Spelled;
    if |name| < (i - b) * 13 {
      SpelledAgrees(up, buf, es, b, i, sum, |name|);
    } else {
      EndsBehind(up, buf, es, b, i, sum);
    }
  }

  /** Reading off the text of a run. */
  lemma TextOf(es: seq<Entry>, b: nat, i: nat) returns (name: seq<nat>)
    requires b < i <= |es|
    ensures Spells(es, b, i, name)
  {
    hide Spelled;
    name := [];
    while |name| < (i - b) * 13 && Spelled(es, b, i, |name|) != 0
      invariant |name| <= (i - b) * 13
      invariant forall p :: 0 <= p < |name| ==> name[p] == Spelled(es, b, i, p) != 0
      decreases (i - b) * 13 - |name|
    {
      name := name + [Spelled(es, b, i, |name|)];
    }
  }

  lemma RunFits(up: nat -> nat, buf: seq<nat>, es: seq<Entry>, b: nat, i: nat, sum: byte)
    requires |buf| > MAX_LFN && Run(up, buf, es, b, i, 0, sum)
    ensures b < i <= |es| && IsLast(es[b])
  {
  }

  lemma EndsTogether(up: nat -> nat, buf: seq<nat>, name: seq<nat>, sought: seq<nat>)
    requires |buf| > MAX_LFN && Folds(up) && Names(buf, sought) && |name| <= MAX_LFN && buf[|name|] == 0
    requires forall p :: 0 <= p < |name| ==> name[p] != 0 && up(name[p]) == up(buf[p])
    ensures SameName(up, name, sought)
  {
    assert forall p :: 0 <= p < |sought| ==> buf[p] == sought[p];
    forall p | 0 <= p < |name| ensures buf[p] != 0 { assert up(name[p]) == up(buf[p]); }
  }
}
