/** `dir_read` and `dir_find`: the scans of LfnScan carried out over the window. */
module DirScan {
  import opened Allocator
  import opened Bytes
  import opened DirEntries
  import opened DirOps
  import opened DirTable
  import opened DirWalk
  import opened Geometry
  import opened Lfn
  import opened LfnScan
  import opened Lookup
  import opened ReadLook
  import opened Window

  datatype Turn = AtEnd | AtObject | Onward

  // ----- dir_read

  /** One turn of the loop of `dir_read`. */
  method ReadTurn(lfnbuf: array<nat>, e: Entry, dptr: nat, ord: nat, sum: byte, blk: nat, ghost k: nat)
    returns (turn: Turn, ord': nat, sum': byte, blk': nat)
    requires lfnbuf.Length > MAX_LFN && dptr == k * 32
    modifies lfnbuf
    ensures match ReadStep(e, k, ReadState(ord, sum, old(lfnbuf[..]), blk))
      case EndOfDir => turn == AtEnd
      case Found(at, b, buf) => turn == AtObject && blk' == b && buf == lfnbuf[..] && at == k
      case More(st) => turn == Onward && st == ReadState(ord', sum', lfnbuf[..], blk')
  {
    turn, ord', sum', blk' := Onward, ord, sum, blk;
    var c: nat := e[0] as nat;
    if c == 0 { return AtEnd, ord', sum', blk'; }
    var a := Attr(e);
    if e[0] == DDEM || c == 0x2E || a == 0x08 || a == 0x28 {
      ord' := LOST;
    } else if a == AM_LFN as nat {
      if IsLast(e) {
        sum' := e[13];
        c := Unflagged(e[0]) as nat;
        ord' := c;
        blk' := dptr;
      }
      var ok := false;
      if c == ord' && sum' == e[13] { ok := PickLfn(lfnbuf, e); }
      ord' := if ok then Before(ord') else LOST;
    } else {
      turn := AtObject;
      var s := SumOf(e);
      if ord != 0 || sum != s { blk' := NO_LFN; }
    }
  }

  lemma ReadUnfold(es: seq<Entry>, i: nat, st: ReadState)
    requires i < |es| && |st.buf| > MAX_LFN
    ensures ReadScan(es[i..], i, st) ==
      var r := ReadStep(es[i], i, st);
      if r.More? then ReadScan(es[i + 1..], i + 1, r.st) else r
  {
    assert es[i..][0] == es[i] && es[i..][1..] == es[i + 1..];
  }

  /** Load entry k and take it into account. */
  method ReadEntry(dp: Dir, lfnbuf: array<nat>, ord: nat, sum: byte, blk: nat, ghost k: nat)
    returns (res: FResult, turn: Turn, ord': nat, sum': byte, blk': nat)
    requires dp.Open() && dp.At(k) && lfnbuf.Length > MAX_LFN && lfnbuf as object != dp.fs.win
    modifies lfnbuf, dp.fs`wflag, dp.fs`winsect, dp.fs`marks, dp.fs.win, dp.fs.disk
    ensures dp.Open() && dp.fs.Grows() && dp.fs.Img() == old(dp.fs.Img())
    ensures res == Ok || (res == DiskErr && dp.fs.disk.mayFail)
    ensures k < |Listing(dp)|
    ensures res == Ok ==>
      match ReadStep(Listing(dp)[k], k, ReadState(ord, sum, old(lfnbuf[..]), blk))
      case EndOfDir => turn == AtEnd
      case Found(at, b, buf) => turn == AtObject && blk' == b && buf == lfnbuf[..] && at == k
      case More(st) => turn == Onward && st == ReadState(ord', sum', lfnbuf[..], blk')
  {
    hide FatFs.Ready, FatFs.Journaled, FatFs.Img, GoodTable, EntrySector, EntryOffset, ClusterOf, EntryOf, Limit, ReadStep;
    turn, ord', sum', blk' := Onward, ord, sum, blk;
    res := LoadEntry(dp, k);
    if res != Ok { return; }
    turn, ord', sum', blk' := ReadTurn(lfnbuf, dp.fs.win[dp.dir..dp.dir + 32], dp.dptr, ord, sum, blk, k);
  }

  /** The loop of `dir_read`. */
  method ReadFrom(dp: Dir, lfnbuf: array<nat>, blk0: nat, ghost k: nat) returns (res: FResult, blk: nat, ghost at: nat)
    requires dp.Open() && dp.At(k) && lfnbuf.Length > MAX_LFN && lfnbuf as object != dp.fs.win
    modifies lfnbuf, dp`dptr, dp`clust, dp`sect, dp`dir, dp`chain
    modifies dp.fs`wflag, dp.fs`winsect, dp.fs`marks, dp.fs`log, dp.fs`fats, dp.fs`lastClst, dp.fs`freeClst, dp.fs`fsiDirty, dp.fs.win, dp.fs.disk
    ensures StaysSafe(dp.fs, res != DiskErr)
    ensures dp.fs.Valid() && dp.fs.Grows()
    ensures res == Ok || res == NoFile || (res == DiskErr && dp.fs.disk.mayFail)
    ensures res != DiskErr ==> dp.Open() && dp.chain == old(dp.chain) && dp.fs.Img() == old(dp.fs.Img())
    ensures k <= |old(Listing(dp))|
    ensures res == Ok ==>
      && ReadScan(old(Listing(dp))[k..], k, ReadState(LOST, 0xFF, old(lfnbuf[..]), blk0)) == Found(at, blk, lfnbuf[..])
      && dp.At(at)
    ensures res == NoFile ==> !ReadScan(old(Listing(dp))[k..], k, ReadState(LOST, 0xFF, old(lfnbuf[..]), blk0)).Found? && dp.sect == 0
  {
    hide AllWellFormed, TornLast;
    hide FatFs.Ready, FatFs.Journaled, FatFs.Img, GoodTable, EntrySector, EntryOffset, ClusterOf, EntryOf, Limit, ReadScan, ReadStep;
    ghost var es := Listing(dp);
    ghost var st0 := ReadState(LOST, 0xFF, lfnbuf[..], blk0);
    at := k;
    var ord, sum: byte := LOST, 0xFF;
    blk := blk0;
    while true
      invariant old(AllWellFormed(dp.fs.fats)) ==> AllWellFormed(dp.fs.fats)
      invariant dp.Open() && dp.At(at) && dp.fs.Grows() && dp.chain == old(dp.chain) && dp.fs.Img() == old(dp.fs.Img())
      invariant k <= at && es == Listing(dp)
      invariant ReadScan(es[at..], at, ReadState(ord, sum, lfnbuf[..], blk)) == ReadScan(es[k..], k, st0)
      decreases |es| - at
    {
      ReadUnfold(es, at, ReadState(ord, sum, lfnbuf[..], blk));
      var turn;
      res, turn, ord, sum, blk := ReadEntry(dp, lfnbuf, ord, sum, blk, at);
      if res != Ok {
        dp.sect := 0;
        return;
      }
      if turn == AtEnd { res := NoFile; }
      if turn == AtObject { return; }
      if res == Ok { res := DirNext(dp, false, at); }
      if res != Ok {
        if turn == Onward && res == NoFile { ReadNothing(es, at + 1, ReadState(ord, sum, lfnbuf[..], blk)); }
        dp.sect := 0;
        return;
      }
      at := at + 1;
    }
  }

  /** `dir_read(dp, 0)` from entry k: the next file or directory. Its long name is in lfnbuf
      exactly if a complete run of entries in front of it stores one. */
  method DirRead(dp: Dir, lfnbuf: array<nat>, blk0: nat, ghost k: nat) returns (res: FResult, blk: nat, ghost at: nat, ghost es: seq<Entry>)
    requires dp.Open() && dp.At(k) && lfnbuf.Length > MAX_LFN && lfnbuf as object != dp.fs.win
    modifies lfnbuf, dp`dptr, dp`clust, dp`sect, dp`dir, dp`chain
    modifies dp.fs`wflag, dp.fs`winsect, dp.fs`marks, dp.fs`log, dp.fs`fats, dp.fs`lastClst, dp.fs`freeClst, dp.fs`fsiDirty, dp.fs.win, dp.fs.disk
    ensures StaysSafe(dp.fs, res != DiskErr)
    ensures dp.fs.Valid() && dp.fs.Grows()
    ensures res == Ok || res == NoFile || (res == DiskErr && dp.fs.disk.mayFail)
    ensures res != DiskErr ==> dp.Open() && dp.chain == old(dp.chain) && dp.fs.Img() == old(dp.fs.Img())
    ensures es == old(Listing(dp)) && k <= |es|
    ensures res == Ok ==>
      && ReadScan(es[k..], k, ReadState(LOST, 0xFF, old(lfnbuf[..]), blk0)) == Found(at, blk, lfnbuf[..])
      && dp.At(at)
    ensures res == NoFile ==> !ReadScan(es[k..], k, ReadState(LOST, 0xFF, old(lfnbuf[..]), blk0)).Found? && dp.sect == 0
    ensures res == Ok ==> FirstObject(es, k, at)
    ensures res == NoFile ==> forall i :: k <= i < |es| && ObjectEntry(es[i]) ==> exists j :: k <= j < i && es[j][0] == 0
    ensures res == Ok && (exists b: nat :: Complete(es, k, b, at)) ==> NameRead(es, k, at, blk, lfnbuf[..])
    ensures res == Ok && (forall b: nat :: !Complete(es, k, b, at)) ==> blk == 0xFFFF_FFFF
    ensures res == Ok && (at == k || !LongEntry(es[at - 1])) ==> blk == 0xFFFF_FFFF
  {
    hide AllWellFormed, TornLast, FatFs.Ready, FatFs.Journaled, FatFs.Img, GoodTable, Complete, NameRead, ReadScan, ReadStep, ObjectEntry, LongEntry;
    es := Listing(dp);
    ghost var buf := lfnbuf[..];
    res, blk, at := ReadFrom(dp, lfnbuf, blk0, k);
    ReadIsFirst(es, k, buf, blk0);
    if res == Ok && (at == k || !LongEntry(es[at - 1])) { AloneHasNone(es, k, at); }
  }

  lemma ReadNothing(es: seq<Entry>, i: nat, st: ReadState)
    requires i == |es| && |st.buf| > MAX_LFN
    ensures ReadScan(es[i..], i, st) == More(st)
  {
    assert es[i..] == [];
  }

  // ----- dir_find

  datatype FindTurn = Ended | LfnHit | SfnHit | Continue

  /** One turn of the loop of `dir_find`. */
  method FindTurnOf(up: nat -> nat, lfnbuf: array<nat>, fn: seq<byte>, e: Entry, dptr: nat, ord: nat, sum: byte, blk: nat, ghost k: nat)
    returns (turn: FindTurn, ord': nat, sum': byte, blk': nat)
    requires lfnbuf.Length > MAX_LFN && dptr == k * 32 && |fn| == 12
    ensures match FindStep(up, SoughtIn(lfnbuf[..], fn), e, k, FindState(ord, sum, blk))
      case NotThere => turn == Ended
      case ByLfn(at, b) => turn == LfnHit && blk' == b && at == k
      case BySfn(at, b) => turn == SfnHit && blk' == b && at == k
      case Go(st) => turn == Continue && st == FindState(ord', sum', blk')
  {
    turn, ord', sum', blk' := Continue, ord, sum, blk;
    var c: nat := e[0] as nat;
    if c == 0 { return Ended, ord', sum', blk'; }
    var a := Attr(e);
    if e[0] == DDEM || (a / 8 % 2 == 1 && a != AM_LFN as nat) {
      ord', blk' := LOST, NO_LFN;
    } else if a == AM_LFN as nat {
      if fn[11] as nat / 0x40 % 2 == 0 {
        if IsLast(e) {
          sum' := e[13];
          c := Unflagged(e[0]) as nat;
          ord' := c;
          blk' := dptr;
        }
        var m := false;
        if c == ord' && sum' == e[13] { m := CmpLfn(up, lfnbuf, e); }
        ord' := if m then Before(ord') else LOST;
      }
    } else {
      var s := SumOf(e);
      if ord == 0 && sum == s { return LfnHit, ord', sum', blk'; }
      if fn[11] as nat % 2 == 0 && e[..11] == fn[..11] { return SfnHit, ord', sum', blk'; }
      ord', blk' := LOST, NO_LFN;
    }
  }

  lemma FindUnfold(up: nat -> nat, q: Sought, es: seq<Entry>, i: nat, st: FindState)
    requires i < |es| && |q.buf| > MAX_LFN
    ensures FindScan(up, q, es[i..], i, st) ==
      var r := FindStep(up, q, es[i], i, st);
      if r.Go? then FindScan(up, q, es[i + 1..], i + 1, r.st) else r
  {
    assert es[i..][0] == es[i] && es[i..][1..] == es[i + 1..];
  }

  lemma FindNothing(up: nat -> nat, q: Sought, es: seq<Entry>, i: nat, st: FindState)
    requires i == |es| && |q.buf| > MAX_LFN
    ensures FindScan(up, q, es[i..], i, st) == Go(st)
  {
    assert es[i..] == [];
  }

  /** `dir_find`: scan the whole directory for the name in lfnbuf and fn. */
  method DirFind(dp: Dir, up: nat -> nat, lfnbuf: array<nat>, fn: seq<byte>) returns (res: FResult, blk: nat, ghost at: nat, ghost es: seq<Entry>)
    requires dp.Open() && lfnbuf.Length > MAX_LFN && lfnbuf as object != dp.fs.win && |fn| == 12
    modifies dp`dptr, dp`clust, dp`sect, dp`dir, dp`chain
    modifies dp.fs`wflag, dp.fs`winsect, dp.fs`marks, dp.fs`log, dp.fs`fats, dp.fs`lastClst, dp.fs`freeClst, dp.fs`fsiDirty, dp.fs.win, dp.fs.disk
    ensures StaysSafe(dp.fs, res != DiskErr)
    ensures dp.fs.Valid() && dp.fs.Grows()
    ensures res == Ok || res == NoFile || (res == DiskErr && dp.fs.disk.mayFail)
    ensures res != DiskErr ==> dp.Open() && dp.chain == old(dp.chain) && dp.fs.Img() == old(dp.fs.Img())
    ensures es == old(Listing(dp))
    ensures res == Ok ==> dp.At(at) && FirstMatch(up, lfnbuf[..], fn, es, 0, at)
    ensures res == Ok ==> if fn[11] as nat / 0x40 % 2 == 1 then blk == 0xFFFF_FFFF else Located(es, at, blk)
    ensures res == NoFile ==> forall i: nat :: Matches(up, lfnbuf[..], fn, es, i) ==> exists j :: 0 <= j < i && es[j][0] == 0
    ensures res == Ok ==> var r := FindScan(up, SoughtIn(lfnbuf[..], fn), es, 0, FIND_START); r == ByLfn(at, blk) || r == BySfn(at, blk)
    ensures res == NoFile ==> !Hit(FindScan(up, SoughtIn(lfnbuf[..], fn), es, 0, FIND_START))
  {
    hide AllWellFormed, TornLast;
    hide FatFs.Ready, FatFs.Journaled, FatFs.Img, GoodTable, EntrySector, EntryOffset, ClusterOf, EntryOf, Limit, FindScan, FindStep, Matches, FirstMatch, Located;
    es := Listing(dp);
    FirstEntry(dp.fs.geo, dp.fs.Img(), dp.chain);
    at, blk := 0, NO_LFN;
    res := DirSdi(dp, 0);
    if res != Ok { return; }
    FindIsFirst(up, lfnbuf[..], fn, es);
    res, blk, at := FindFrom(dp, up, lfnbuf, fn);
    assert es[0..] == es;
  }

  /** The loop of `dir_find`, from the first entry. */
  method FindFrom(dp: Dir, up: nat -> nat, lfnbuf: array<nat>, fn: seq<byte>) returns (res: FResult, blk: nat, ghost at: nat)
    requires dp.Open() && dp.At(0) && lfnbuf.Length > MAX_LFN && lfnbuf as object != dp.fs.win && |fn| == 12
    modifies dp`dptr, dp`clust, dp`sect, dp`dir, dp`chain
    modifies dp.fs`wflag, dp.fs`winsect, dp.fs`marks, dp.fs`log, dp.fs`fats, dp.fs`lastClst, dp.fs`freeClst, dp.fs`fsiDirty, dp.fs.win, dp.fs.disk
    ensures StaysSafe(dp.fs, res != DiskErr)
    ensures dp.fs.Valid() && dp.fs.Grows()
    ensures res == Ok || res == NoFile || (res == DiskErr && dp.fs.disk.mayFail)
    ensures res != DiskErr ==> dp.Open() && dp.chain == old(dp.chain) && dp.fs.Img() == old(dp.fs.Img())
    ensures res == Ok ==>
      && dp.At(at)
      && (var r := FindScan(up, SoughtIn(lfnbuf[..], fn), old(Listing(dp))[0..], 0, FIND_START); r == ByLfn(at, blk) || r == BySfn(at, blk))
    ensures res == NoFile ==> !Hit(FindScan(up, SoughtIn(lfnbuf[..], fn), old(Listing(dp))[0..], 0, FIND_START))
  {
    hide AllWellFormed, TornLast;
    hide FatFs.Ready, FatFs.Journaled, FatFs.Img, GoodTable, EntrySector, EntryOffset, ClusterOf, EntryOf, Limit, FindScan, FindStep;
    ghost var es := Listing(dp);
    ghost var q := SoughtIn(lfnbuf[..], fn);
    at := 0;
    var ord, sum: byte := LOST, 0xFF;
    blk := NO_LFN;
    while true
      invariant old(AllWellFormed(dp.fs.fats)) ==> AllWellFormed(dp.fs.fats)
      invariant dp.Open() && dp.At(at) && dp.fs.Grows() && dp.chain == old(dp.chain) && dp.fs.Img() == old(dp.fs.Img())
      invariant es == Listing(dp) && q == SoughtIn(lfnbuf[..], fn)
      invariant FindScan(up, q, es[at..], at, FindState(ord, sum, blk)) == FindScan(up, q, es[0..], 0, FIND_START)
      decreases |es| - at
    {
      res := LoadEntry(dp, at);
      if res != Ok { return; }
      FindUnfold(up, q, es, at, FindState(ord, sum, blk));
      var turn;
      turn, ord, sum, blk := FindTurnOf(up, lfnbuf, fn, dp.fs.win[dp.dir..dp.dir + 32], dp.dptr, ord, sum, blk, at);
      if turn == Ended { return NoFile, blk, at; }
      if turn == LfnHit || turn == SfnHit { return; }
      res := DirNext(dp, false, at);
      if res != Ok {
        if res == NoFile { FindNothing(up, q, es, at + 1, FindState(ord, sum, blk)); }
        return;
      }
      at := at + 1;
    }
  }

  // ----- a registered name is found and read back

  lemma {:induction false} FindSplit(up: nat -> nat, q: Sought, a: seq<Entry>, b: seq<Entry>, k: nat, st: FindState)
    requires |q.buf| > MAX_LFN
    ensures FindScan(up, q, a + b, k, st) ==
      var r := FindScan(up, q, a, k, st);
      if r.Go? then FindScan(up, q, b, k + |a|, r.st) else r
    decreases |a|
  {
    hide FindStep;
    if a == [] {
      assert a + b == b;
    } else {
      assert (a + b)[1..] == a[1..] + b && (a + b)[0] == a[0];
      var r := FindStep(up, q, a[0], k, st);
      if r.Go? { FindSplit(up, q, a[1..], b, k + 1, r.st); }
    }
  }

  lemma {:induction false} ReadSplit(a: seq<Entry>, b: seq<Entry>, k: nat, st: ReadState)
    requires |st.buf| > MAX_LFN
    ensures !ReadScan(a, k, st).More? ==> ReadScan(a + b, k, st) == ReadScan(a, k, st)
    decreases |a|
  {
    if a != [] {
      assert (a + b)[1..] == a[1..] + b;
      var r := ReadStep(a[0], k, st);
      hide ReadStep;
      if r.More? { ReadSplit(a[1..], b, k + 1, r.st); }
    }
  }

  /** Without an end mark the scan does not report the end. */
  lemma {:induction false} NoMarkGoesOn(up: nat -> nat, q: Sought, a: seq<Entry>, k: nat, st: FindState)
    requires |q.buf| > MAX_LFN && forall i :: 0 <= i < |a| ==> a[i][0] != 0
    ensures !FindScan(up, q, a, k, st).NotThere?
    decreases |a|
  {
    if a != [] {
      var r := FindStep(up, q, a[0], k, st);
      assert !r.NotThere?;
      hide FindStep;
      if r.Go? { NoMarkGoesOn(up, q, a[1..], k + 1, r.st); }
    }
  }

  /** In a clean directory that did not have the name, a name of up to 254 characters that
      dir_register has put in is found through its long name, whatever its case. */
  lemma FoundAfterRegister(up: nat -> nat, q: Sought, a: seq<Entry>, b: seq<Entry>, k: nat, block: seq<Entry>, name: seq<nat>, sought: seq<nat>)
    requires |q.buf| > MAX_LFN && !q.noLfn && Folds(up) && Names(q.buf, sought)
    requires EndsClean(a) && Extended(a, b) && FirstFit(b, k, |block|) && k < |b|
    requires IsBlock(block, name) && Plain(name) && InUse(block[|block| - 1]) && |name| <= 254 && SameName(up, name, sought)
    requires !Hit(FindScan(up, q, a, 0, FIND_START))
    ensures FindScan(up, q, Insert(b, k + 1 - |block|, block), 0, FIND_START) == ByLfn(k, (k + 1 - |block|) * 32)
  {
    hide Insert, EndsClean, Extended, FindScan, FindStep, IsBlock, InUse, Plain, SameName, Folds, FirstFit, Hit, Names;
    BlockSize(b, k, block, name);
    var from := k + 1 - |block|;
    var head, tail := b[..from], b[k + 1..];
    HeadGoesOn(up, q, a, b, k, |block|);
    var st := FindScan(up, q, head, 0, FIND_START).st;
    InsertParts(b, from, block);
    FindSplit(up, q, head, block + tail, 0, FIND_START);
    RegisteredIsFound(up, q, block, name, sought, from, st);
    FindSplit(up, q, block, tail, from, st);
  }

  lemma ScanHead(up: nat -> nat, q: Sought, es: seq<Entry>, k: nat, st: FindState)
    requires |q.buf| > MAX_LFN && es != [] && !FindStep(up, q, es[0], k, st).Go?
    ensures FindScan(up, q, es, k, st) == FindStep(up, q, es[0], k, st)
  {
    hide FindStep;
  }

  lemma InsertAt(b: seq<Entry>, k: nat, e: Entry)
    requires k < |b|
    ensures Insert(b, k, [e])[k] == e && (k > 0 ==> Insert(b, k, [e])[k - 1] == b[k - 1])
  {
  }

  /** A name that dir_register has put in without a long name is found through its short name,
      unless NS_LOSS hides it. */
  lemma ShortFoundAfterRegister(up: nat -> nat, buf: seq<nat>, fn: seq<byte>, a: seq<Entry>, b: seq<Entry>, k: nat, block: seq<Entry>, name: seq<nat>)
    requires |buf| > MAX_LFN && |fn| == 12 && fn[11] as nat % 2 == 0 && fn[0] != 0 && fn[0] != 0xE5
    requires EndsClean(a) && Extended(a, b) && FirstFit(b, k, 1) && k < |b|
    requires BlockFor(block, fn, name) && |block| == 1
    requires !Hit(FindScan(up, SoughtIn(buf, fn), a, 0, FIND_START))
    ensures var r := FindScan(up, SoughtIn(buf, fn), Insert(b, k, block), 0, FIND_START);
      Hit(r) && r.at == k && (k == 0 || !LongEntry(b[k - 1]) ==> r == BySfn(k, 0xFFFF_FFFF))
  {
    hide Insert, EndsClean, Extended, FindScan, FirstFit, Plain;
    var q, e := SoughtIn(buf, fn), block[0];
    HeadGoesOn(up, q, a, b, k, 1);
    InsertParts(b, k, block);
    FindSplit(up, q, b[..k], block + b[k + 1..], 0, FIND_START);
    var st := FindScan(up, q, b[..k], 0, FIND_START).st;
    assert e[0] == e[..11][0] == fn[..11][0];
    var c := Insert(b, k, block);
    assert block + b[k + 1..] == [e] + b[k + 1..];
    ScanHead(up, q, [e] + b[k + 1..], k, st);
    assert c[k] == e && (k > 0 ==> c[k - 1] == b[k - 1]) by { InsertAt(b, k, e); }
    FindIsFirst(up, buf, fn, c);
    if k == 0 || !LongEntry(b[k - 1]) { Alone(up, buf, c, k, FindScan(up, q, c, 0, FIND_START).blk); }
  }

  lemma BlockSize(b: seq<Entry>, k: nat, block: seq<Entry>, name: seq<nat>)
    requires IsBlock(block, name) && FirstFit(b, k, |block|)
    ensures 0 < |block| <= k + 1
  {
  }

  /** In front of the first fit the scan meets neither the name nor the end. */
  lemma HeadGoesOn(up: nat -> nat, q: Sought, a: seq<Entry>, b: seq<Entry>, k: nat, n: nat)
    requires |q.buf| > MAX_LFN && EndsClean(a) && Extended(a, b) && FirstFit(b, k, n) && k < |b| && n > 0
    requires !Hit(FindScan(up, q, a, 0, FIND_START))
    ensures FindScan(up, q, b[..k + 1 - n], 0, FIND_START).Go?
  {
    hide FindScan, FindStep;
    ExtendedClean(a, b);
    NoMarkBefore(b, k, n);
    NoMarkGoesOn(up, q, b[..k + 1 - n], 0, FIND_START);
    HeadOfOld(up, q, a, b, k + 1 - n);
  }

  lemma InsertParts(b: seq<Entry>, from: nat, block: seq<Entry>)
    requires from + |block| <= |b|
    ensures Insert(b, from, block) == b[..from] + (block + b[from + |block|..])
  {
  }

  /** The scan of the entries in front of the block found nothing before either. */
  lemma HeadOfOld(up: nat -> nat, q: Sought, a: seq<Entry>, b: seq<Entry>, from: nat)
    requires |q.buf| > MAX_LFN && Extended(a, b) && from <= |b| && (forall i :: 0 <= i < from ==> b[i][0] != 0)
    requires !Hit(FindScan(up, q, a, 0, FIND_START))
    ensures !Hit(FindScan(up, q, b[..from], 0, FIND_START))
  {
    if from > 0 { assert b[from - 1][0] != 0; }
    assert b[..from] == a[..from] && a == a[..from] + a[from..];
    FindSplit(up, q, a[..from], a[from..], 0, FIND_START);
  }

  /** Read from its first entry, a registered name of up to 253 characters comes back exactly. */
  lemma ReadAfterRegister(b: seq<Entry>, k: nat, block: seq<Entry>, name: seq<nat>, st: ReadState)
    requires |st.buf| > MAX_LFN && k < |b| && k + 1 >= |block|
    requires IsBlock(block, name) && Plain(name) && InUse(block[|block| - 1]) && |name| <= 253
    ensures var from := k + 1 - |block|;
      var r := ReadScan(Insert(b, from, block)[from..], from, st);
      r.Found? && r.at == k && r.blk == from * 32 && Names(r.buf, name)
  {
    var from := k + 1 - |block|;
    assert Insert(b, from, block)[from..] == block + b[k + 1..];
    RegisteredIsRead(block, name, from, st);
    ReadSplit(block, b[k + 1..], from, st);
  }
}
