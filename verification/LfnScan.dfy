/** Scanning a directory for names: what `dir_read` and `dir_find` make of the entries one
    after the other, and that a registered name is read back and found. */
module LfnScan {
  import opened Bytes
  import opened Lfn

  const NO_LFN: nat := 0xFFFF_FFFF
  const DDEM: byte := 0xE5 // deleted entry
  const LOST: nat := 0xFF  // ord: no long name in progress

  function Attr(e: Entry): nat
  {
    e[11] as nat % 0x40
  }

  /** Number of long name entries of a name. */
  function Pieces(name: seq<nat>): nat
  {
    (|name| + 12) / 13
  }

  /** The entries `dir_register` writes for a name: its pieces from the last to the first,
      then the short entry they are tied to. */
  ghost predicate IsBlock(es: seq<Entry>, name: seq<nat>)
  {
    && |es| == Pieces(name) + 1
    && forall j :: 0 <= j < |es| - 1 ==> IsPiece(es[j], name, |es| - 1 - j, SumSfn(es[|es| - 1]))
  }

  ghost predicate Plain(name: seq<nat>)
  {
    1 <= |name| <= MAX_LFN && forall k :: 0 <= k < |name| ==> 0 < name[k] < FILLER
  }

  /** A short entry of a file or directory in use. */
  predicate InUse(e: Entry)
  {
    && e[0] != 0 && e[0] != DDEM && e[0] != 0x2E
    && Attr(e) != AM_LFN as nat && Attr(e) / 8 % 2 == 0
  }

  // ----- dir_read

  datatype ReadState = ReadState(ord: nat, sum: byte, buf: seq<nat>, blk: nat)

  datatype ReadOut = EndOfDir | Found(at: nat, blk: nat, buf: seq<nat>) | More(st: ReadState)

  function Before(ord: nat): nat
  {
    if ord == 0 then LOST else ord - 1
  }

  /** One turn of the loop of `dir_read`, looking for files and directories, at entry k. */
  function ReadStep(e: Entry, k: nat, st: ReadState): (r: ReadOut)
    requires |st.buf| > MAX_LFN
    ensures r.More? ==> |r.st.buf| == |st.buf|
  {
    var c, a := e[0], Attr(e);
    if c == 0 then EndOfDir
    else if c == DDEM || c == 0x2E || a == 0x08 || a == 0x28 then More(st.(ord := LOST))
    else if a == AM_LFN as nat then
      var sum := if IsLast(e) then e[13] else st.sum;
      var cc := Unflagged(c) as nat;
      var ord := if IsLast(e) then cc else st.ord;
      var blk := if IsLast(e) then k * 32 else st.blk;
      if cc == ord && sum == e[13] then
        var (ok, buf) := PickOf(st.buf, e);
        More(ReadState(if ok then Before(ord) else LOST, sum, buf, blk))
      else More(ReadState(LOST, sum, st.buf, blk))
    else Found(k, if st.ord != 0 || st.sum != SumSfn(e) then NO_LFN else st.blk, st.buf)
  }

  /** The loop of `dir_read` over entries k, k + 1, .. */
  function ReadScan(es: seq<Entry>, k: nat, st: ReadState): ReadOut
    requires |st.buf| > MAX_LFN
  {
    if es == [] then More(st)
    else
      var r := ReadStep(es[0], k, st);
      if r.More? then ReadScan(es[1..], k + 1, r.st) else r
  }

  /** Pieces n .. r + 1 of the name have been taken. */
  ghost predicate Taken(st: ReadState, name: seq<nat>, r: nat, sum: byte, blk: nat)
  {
    st.ord == r && st.sum == sum && st.blk == blk && |st.buf| > MAX_LFN && Holds(st.buf, name, r * 13)
  }

  lemma LastPiece(name: seq<nat>)
    requires 1 <= |name| <= MAX_LFN
    ensures 1 <= Pieces(name) <= 20 && (Pieces(name) - 1) * 13 < |name| <= Pieces(name) * 13
  {
  }

  lemma ReadPiece(e: Entry, name: seq<nat>, r: nat, sum: byte, k: nat, st: ReadState, blk: nat)
    requires Plain(name) && 1 <= r < Pieces(name) && IsPiece(e, name, r, sum) && Taken(st, name, r, sum, blk)
    ensures ReadStep(e, k, st).More? && Taken(ReadStep(e, k, st).st, name, r - 1, sum, blk)
  {
    LastPiece(name);
    FlagOf(e, name, r, sum);
    PickOther(st.buf, e, name, r, sum);
    hide PickOf;
  }

  lemma ReadFirst(e: Entry, name: seq<nat>, sum: byte, k: nat, st: ReadState)
    requires Plain(name) && IsPiece(e, name, Pieces(name), sum) && |st.buf| > MAX_LFN
    ensures ReadStep(e, k, st).More?
    ensures |name| <= 253 ==> Taken(ReadStep(e, k, st).st, name, Pieces(name) - 1, sum, k * 32)
    ensures |name| > 253 ==> ReadStep(e, k, st).st.ord == LOST
  {
    LastPiece(name);
    FlagOf(e, name, Pieces(name), sum);
    PickLast(st.buf, e, name, Pieces(name), sum);
    hide PickOf;
  }

  /** The rest of a block whose first pieces have been taken. */
  lemma {:induction false} ReadRest(es: seq<Entry>, name: seq<nat>, j: nat, k: nat, st: ReadState, blk: nat)
    requires IsBlock(es, name) && Plain(name) && InUse(es[|es| - 1]) && 1 <= j < |es|
    requires Taken(st, name, |es| - 1 - j, SumSfn(es[|es| - 1]), blk)
    ensures var r := ReadScan(es[j..], k, st);
      r.Found? && r.at == k + (|es| - 1 - j) && r.blk == blk && Holds(r.buf, name, 0)
    decreases |es| - j
  {
    assert es[j..][0] == es[j] && es[j..][1..] == es[j + 1..];
    if j < |es| - 1 {
      ReadPiece(es[j], name, |es| - 1 - j, SumSfn(es[|es| - 1]), k, st, blk);
      ReadRest(es, name, j + 1, k + 1, ReadStep(es[j], k, st).st, blk);
    }
  }

  /** The rest of a block whose first piece was refused. */
  lemma {:induction false} ReadLost(es: seq<Entry>, name: seq<nat>, j: nat, k: nat, st: ReadState)
    requires IsBlock(es, name) && Plain(name) && InUse(es[|es| - 1]) && 1 <= j < |es|
    requires st.ord == LOST && |st.buf| > MAX_LFN
    ensures var r := ReadScan(es[j..], k, st);
      r.Found? && r.at == k + (|es| - 1 - j) && r.blk == NO_LFN
    decreases |es| - j
  {
    assert es[j..][0] == es[j] && es[j..][1..] == es[j + 1..];
    if j < |es| - 1 {
      LastPiece(name);
      FlagOf(es[j], name, |es| - 1 - j, SumSfn(es[|es| - 1]));
      ReadLost(es, name, j + 1, k + 1, ReadStep(es[j], k, st).st);
    }
  }

  /** Whatever was scanned before, a registered name of up to 253 characters is read back
      exactly; a longer one is reported without its long name. */
  lemma RegisteredIsRead(es: seq<Entry>, name: seq<nat>, k: nat, st: ReadState)
    requires IsBlock(es, name) && Plain(name) && InUse(es[|es| - 1]) && |st.buf| > MAX_LFN
    ensures var r := ReadScan(es, k, st);
      && r.Found? && r.at == k + |es| - 1
      && (|name| <= 253 ==> r.blk == k * 32 && Names(r.buf, name))
      && (|name| > 253 ==> r.blk == NO_LFN)
  {
    LastPiece(name);
    ReadFirst(es[0], name, SumSfn(es[|es| - 1]), k, st);
    var st1 := ReadStep(es[0], k, st).st;
    if |name| <= 253 {
      ReadRest(es, name, 1, k + 1, st1, k * 32);
    } else {
      ReadLost(es, name, 1, k + 1, st1);
    }
  }

  // ----- dir_find

  /** The upper-casing table maps nothing but 0 to 0. */
  ghost predicate Folds(up: nat -> nat)
  {
    forall x :: up(x) == 0 <==> x == 0
  }

  /** Equal up to upper case. */
  ghost predicate SameName(up: nat -> nat, a: seq<nat>, b: seq<nat>)
  {
    |a| == |b| && forall k :: 0 <= k < |a| ==> up(a[k]) == up(b[k])
  }

  /** The sought name: what `create_name` left in the buffer and in fn, with its flags. */
  datatype Sought = Sought(buf: seq<nat>, fn: seq<byte>, noLfn: bool, loss: bool)

  /** What dir_find looks for: the buffer and fn with its flags. */
  function SoughtIn(buf: seq<nat>, fn: seq<byte>): Sought
    requires |fn| == 12
  {
    Sought(buf, fn[..11], fn[11] as nat / 0x40 % 2 == 1, fn[11] as nat % 2 == 1)
  }

  datatype FindState = FindState(ord: nat, sum: byte, blk: nat)

  const FIND_START := FindState(LOST, 0xFF, NO_LFN)

  datatype FindOut = NotThere | ByLfn(at: nat, blk: nat) | BySfn(at: nat, blk: nat) | Go(st: FindState)

  /** One turn of the loop of `dir_find`, at entry k. */
  function FindStep(up: nat -> nat, q: Sought, e: Entry, k: nat, st: FindState): FindOut
    requires |q.buf| > MAX_LFN
  {
    var c, a := e[0], Attr(e);
    if c == 0 then NotThere
    else if c == DDEM || (a / 8 % 2 == 1 && a != AM_LFN as nat) then Go(FindState(LOST, st.sum, NO_LFN))
    else if a == AM_LFN as nat then
      if q.noLfn then Go(st)
      else
        var sum := if IsLast(e) then e[13] else st.sum;
        var cc := Unflagged(c) as nat;
        var ord := if IsLast(e) then cc else st.ord;
        var blk := if IsLast(e) then k * 32 else st.blk;
        Go(FindState(if cc == ord && sum == e[13] && CmpOf(up, q.buf, e) then Before(ord) else LOST, sum, blk))
    else if st.ord == 0 && st.sum == SumSfn(e) then ByLfn(k, st.blk)
    else if !q.loss && e[..11] == q.fn then BySfn(k, st.blk)
    else Go(FindState(LOST, st.sum, NO_LFN))
  }

  /** The loop of `dir_find` over entries k, k + 1, .. */
  function FindScan(up: nat -> nat, q: Sought, es: seq<Entry>, k: nat, st: FindState): FindOut
    requires |q.buf| > MAX_LFN
  {
    if es == [] then Go(st)
    else
      var r := FindStep(up, q, es[0], k, st);
      if r.Go? then FindScan(up, q, es[1..], k + 1, r.st) else r
  }

  /** The characters of one piece agree with the buffer, the terminator included. */
  ghost predicate PieceAgrees(up: nat -> nat, buf: seq<nat>, name: seq<nat>, lo: nat, base: nat)
    requires |buf| > MAX_LFN
  {
    && Stop(name, base) <= MAX_LFN
    && forall i :: lo <= i < Stop(name, base) ==> up(PieceChar(name, i)) == up(buf[i])
  }

  lemma AgreesStep(up: nat -> nat, buf: seq<nat>, name: seq<nat>, lo: nat, base: nat)
    requires |buf| > MAX_LFN && lo < Stop(name, base)
    ensures lo >= MAX_LFN ==> !PieceAgrees(up, buf, name, lo, base)
    ensures lo < MAX_LFN ==>
      (PieceAgrees(up, buf, name, lo, base) <==> up(PieceChar(name, lo)) == up(buf[lo]) && PieceAgrees(up, buf, name, lo + 1, base))
  {
  }

  lemma {:induction false} CmpRun(up: nat -> nat, buf: seq<nat>, e: Entry, name: seq<nat>, base: nat, s: nat, i: nat, wc: nat)
    requires |buf| > MAX_LFN && s <= 13 && |name| <= MAX_LFN && forall k :: 0 <= k < |name| ==> 0 < name[k] < FILLER
    requires forall t :: 0 <= t < 13 ==> CharOf(e, t) == PieceChar(name, base + t)
    requires if base + s <= |name| then i == base + s && wc != 0 else i == |name| + 1 && wc == 0
    requires i <= MAX_LFN
    ensures var c := CmpFrom(up, buf, e, i, wc, s);
      && (c.Compared? <==> PieceAgrees(up, buf, name, i, base))
      && (c.Compared? ==> c.i == Stop(name, base) && (c.wc != 0 <==> base + 13 <= |name|))
    decreases 13 - s
  {
    if s < 13 {
      var uc := CharOf(e, s);
      assert uc == PieceChar(name, base + s);
      hide CharOf, PieceAgrees;
      if wc != 0 {
        AgreesStep(up, buf, name, i, base);
        if i < MAX_LFN && up(uc) == up(buf[i]) {
          CmpRun(up, buf, e, name, base, s + 1, i + 1, uc);
        }
      } else {
        CmpRun(up, buf, e, name, base, s + 1, i, wc);
      }
    }
  }

  /** When a piece compares equal. */
  lemma CmpPiece(up: nat -> nat, buf: seq<nat>, e: Entry, name: seq<nat>, r: nat, sum: byte)
    requires |buf| > MAX_LFN && Plain(name) && 1 <= r <= Pieces(name) && IsPiece(e, name, r, sum)
    ensures CmpOf(up, buf, e) <==>
      && PieceAgrees(up, buf, name, (r - 1) * 13, (r - 1) * 13)
      && (|name| == r * 13 ==> buf[|name|] == 0)
  {
    LastPiece(name);
    FlagOf(e, name, r, sum);
    CmpRun(up, buf, e, name, (r - 1) * 13, 0, (r - 1) * 13, 1);
    hide CmpFrom, PieceAgrees, PieceChar, CharOf;
  }

  /** The buffer agrees with the stored name from character lo on, and ends where it ends. */
  ghost predicate TailAgrees(up: nat -> nat, buf: seq<nat>, name: seq<nat>, lo: nat)
    requires |buf| > MAX_LFN
  {
    |name| < MAX_LFN && buf[|name|] == 0 && forall i :: lo <= i < |name| ==> up(name[i]) == up(buf[i])
  }

  lemma FirstAgrees(up: nat -> nat, buf: seq<nat>, name: seq<nat>, n: nat)
    requires |buf| > MAX_LFN && Plain(name) && n == Pieces(name) && Folds(up)
    ensures PieceAgrees(up, buf, name, (n - 1) * 13, (n - 1) * 13) && (|name| == n * 13 ==> buf[|name|] == 0)
      <==> TailAgrees(up, buf, name, (n - 1) * 13)
  {
    LastPiece(name);
    if PieceAgrees(up, buf, name, (n - 1) * 13, (n - 1) * 13) && |name| < n * 13 {
      assert up(PieceChar(name, |name|)) == up(buf[|name|]);
    }
    if PieceAgrees(up, buf, name, (n - 1) * 13, (n - 1) * 13) {
      forall i | (n - 1) * 13 <= i < |name| ensures up(name[i]) == up(buf[i]) { assert PieceChar(name, i) == name[i]; }
    }
  }

  lemma NextAgrees(up: nat -> nat, buf: seq<nat>, name: seq<nat>, r: nat)
    requires |buf| > MAX_LFN && Plain(name) && 1 <= r < Pieces(name) && TailAgrees(up, buf, name, r * 13)
    ensures PieceAgrees(up, buf, name, (r - 1) * 13, (r - 1) * 13) <==> TailAgrees(up, buf, name, (r - 1) * 13)
  {
    LastPiece(name);
    if PieceAgrees(up, buf, name, (r - 1) * 13, (r - 1) * 13) {
      forall i | (r - 1) * 13 <= i < r * 13 ensures up(name[i]) == up(buf[i]) { assert PieceChar(name, i) == name[i]; }
    }
  }

  /** The tail agrees as a whole exactly when the names are the same: what lies in the buffer
      behind the sought name cannot matter. */
  lemma WholeAgrees(up: nat -> nat, buf: seq<nat>, name: seq<nat>, sought: seq<nat>)
    requires |buf| > MAX_LFN && Plain(name) && Names(buf, sought) && Folds(up)
    ensures TailAgrees(up, buf, name, 0) <==> |name| < MAX_LFN && SameName(up, name, sought)
  {
    assert forall i :: 0 <= i < |sought| ==> buf[i] == sought[i];
    if TailAgrees(up, buf, name, 0) {
      forall i | 0 <= i < |name| ensures buf[i] != 0 { assert up(name[i]) == up(buf[i]); }
    }
  }

  /** One more piece: the match goes on as long as the rest of the name agrees. */
  lemma FindPiece(up: nat -> nat, q: Sought, e: Entry, name: seq<nat>, r: nat, sum: byte, k: nat, st: FindState)
    requires |q.buf| > MAX_LFN && !q.noLfn && Plain(name) && 1 <= r < Pieces(name) && IsPiece(e, name, r, sum)
    requires st.sum == sum && st.ord == if TailAgrees(up, q.buf, name, r * 13) then r else LOST
    ensures FindStep(up, q, e, k, st) == Go(FindState(if TailAgrees(up, q.buf, name, (r - 1) * 13) then r - 1 else LOST, sum, st.blk))
  {
    LastPiece(name);
    FlagOf(e, name, r, sum);
    CmpPiece(up, q.buf, e, name, r, sum);
    if TailAgrees(up, q.buf, name, r * 13) { NextAgrees(up, q.buf, name, r); }
    hide CmpOf, PieceAgrees;
  }

  /** Pieces n .. r + 1 matched; the scan goes on as long as the rest does. */
  lemma {:induction false} FindRest(up: nat -> nat, q: Sought, es: seq<Entry>, name: seq<nat>, j: nat, k: nat, st: FindState)
    requires |q.buf| > MAX_LFN && !q.noLfn && Folds(up) && IsBlock(es, name) && Plain(name) && InUse(es[|es| - 1]) && 1 <= j < |es|
    requires st.sum == SumSfn(es[|es| - 1])
    requires st.ord == if TailAgrees(up, q.buf, name, (|es| - 1 - j) * 13) then |es| - 1 - j else LOST
    ensures var r := FindScan(up, q, es[j..], k, st);
      if TailAgrees(up, q.buf, name, 0) then r == ByLfn(k + (|es| - 1 - j), st.blk)
      else !r.ByLfn? && !r.NotThere?
    decreases |es| - j
  {
    assert es[j..][0] == es[j] && es[j..][1..] == es[j + 1..];
    LastPiece(name);
    if j < |es| - 1 {
      FindPiece(up, q, es[j], name, |es| - 1 - j, st.sum, k, st);
      var st1 := FindStep(up, q, es[j], k, st).st;
      hide CmpOf, TailAgrees, FindStep;
      FindRest(up, q, es, name, j + 1, k + 1, st1);
    }
  }

  /** Whatever was scanned before, the search accepts a registered name through its long
      name exactly if it is the sought name up to case and has at most 254 characters. */
  lemma RegisteredIsFound(up: nat -> nat, q: Sought, es: seq<Entry>, name: seq<nat>, sought: seq<nat>, k: nat, st: FindState)
    requires |q.buf| > MAX_LFN && !q.noLfn && Folds(up) && Names(q.buf, sought)
    requires IsBlock(es, name) && Plain(name) && InUse(es[|es| - 1])
    ensures var r := FindScan(up, q, es, k, st);
      if |name| <= 254 && SameName(up, name, sought) then r == ByLfn(k + |es| - 1, k * 32)
      else !r.ByLfn? && !r.NotThere?
  {
    LastPiece(name);
    var n, sum := Pieces(name), SumSfn(es[|es| - 1]);
    FlagOf(es[0], name, n, sum);
    CmpPiece(up, q.buf, es[0], name, n, sum);
    FirstAgrees(up, q.buf, name, n);
    WholeAgrees(up, q.buf, name, sought);
    var st1 := FindStep(up, q, es[0], k, st).st;
    hide CmpOf, PieceAgrees, TailAgrees;
    FindRest(up, q, es, name, 1, k + 1, st1);
  }
}
