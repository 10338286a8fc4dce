/** `create_chain` and `remove_chain`. */
module Allocator {
  import opened Arith
  import opened Bytes
  import opened Chains
  import opened ChainEdits
  import opened FatEntries
  import opened FatTable
  import opened Geometry
  import opened Window

  /** The value `put_fat(..., 0xFFFFFFFF)` leaves in an entry. */
  function EndMark(g: Geo): nat
  {
    Cut(g.fsType, 0xFFFF_FFFF)
  }

  /** The end mark reads back as an end, every valid link reads back unchanged. */
  lemma MarksReadBack(g: Geo)
    requires g.Sound()
    ensures g.nFatent <= EndMark(g) < DISK_ERROR
    ensures EndMark(g) == match g.fsType case Fat12 => 0xFFF case Fat16 => 0xFFFF case Fat32 => 0x0FFF_FFFF
    ensures forall c :: 0 <= c < g.nFatent ==> Cut(g.fsType, c) == c
  {
  }

  lemma LinkReadsBack(g: Geo, c: nat)
    requires g.Sound() && c < g.nFatent
    ensures Cut(g.fsType, c) == c && g.nFatent <= EndMark(g) < DISK_ERROR
  {
    MarksReadBack(g);
  }

  /** r is the first free cluster after scl, searching upwards and wrapping to 2. */
  ghost predicate FirstFree(fat: FatMap, scl: nat, r: nat)
  {
    && InRange(fat, r) && fat[r] == 0
    && (if r > scl then forall c :: scl < c < r ==> fat[c] != 0
        else (forall c :: scl < c < |fat| ==> fat[c] != 0) && (forall c :: 2 <= c < r ==> fat[c] != 0))
  }

  ghost predicate NoneFree(fat: FatMap)
  {
    forall c :: 2 <= c < |fat| ==> fat[c] != 0
  }

  ghost predicate HasInvalid(fat: FatMap)
  {
    exists c :: 2 <= c < |fat| && fat[c] == 1
  }

  /** The cluster the search starts behind: the chain's end, or the last allocation. */
  function SearchStart(clst: nat, hint: nat, n: nat): nat
  {
    if clst != 0 then clst else if hint == 0 || hint >= n then 1 else hint
  }

  /** The cluster is already followed by another one. */
  predicate Followed(fat: FatMap, clst: nat)
  {
    InRange(fat, clst) && 2 <= fat[clst] < |fat|
  }

  /** The FATs a fresh allocation goes through. */
  function AllocSteps(fat: FatMap, clst: nat, r: nat, eoc: nat): seq<FatMap>
  {
    if r >= |fat| then []
    else if clst == 0 || clst >= |fat| then [Marked(fat, r, eoc)]
    else [Marked(fat, r, eoc), Linked(fat, clst, r, eoc)]
  }

  /** Every FAT recorded so far is well formed. */
  ghost predicate AllWellFormed(fats: seq<FatMap>)
  {
    forall i :: 0 <= i < |fats| ==> WellFormed(fats[i])
  }

  /** The last FAT is what the one before it reads between the two byte stores of a put_fat. */
  ghost predicate TornLast(g: Geo, fats: seq<FatMap>)
  {
    |fats| >= 2 && Torn(g, fats[|fats| - 2], fats[|fats| - 1])
  }

  /** Every FAT recorded so far is well formed, unless a disk error on FAT12 tore the last. */
  ghost predicate SafeSoFar(g: Geo, fats: seq<FatMap>)
  {
    AllWellFormed(fats) || (TornLast(g, fats) && AllWellFormed(fats[..|fats| - 1]))
  }

  /** Well-formed FATs stay well formed. */
  twostate predicate StaysSafe(fs: FatFs, ok: bool)
    reads fs`fats
  {
    old(AllWellFormed(fs.fats)) ==> if ok then AllWellFormed(fs.fats) else SafeSoFar(fs.geo, fs.fats)
  }

  /** A call that a disk error cut short: the FATs recorded are the first n of its steps, on
      FAT12 perhaps with a torn one behind them. */
  ghost predicate CutShort(g: Geo, before: seq<FatMap>, steps: seq<FatMap>, after: seq<FatMap>)
  {
    exists n: nat :: CutShortAt(g, before, steps, after, n)
  }

  ghost predicate CutShortAt(g: Geo, before: seq<FatMap>, steps: seq<FatMap>, after: seq<FatMap>, n: nat)
  {
    n <= |steps| && (after == before + steps[..n] || (|after| > 0 && after[..|after| - 1] == before + steps[..n] && TornLast(g, after)))
  }

  lemma CutShortSafe(g: Geo, before: seq<FatMap>, steps: seq<FatMap>, after: seq<FatMap>)
    requires CutShort(g, before, steps, after) && AllWellFormed(before) && AllWellFormed(steps)
    ensures SafeSoFar(g, after)
  {
    hide WellFormed, TornLast;
    var n: nat :| CutShortAt(g, before, steps, after, n);
    assert AllWellFormed(before + steps[..n]);
  }

  /** One failed `put_fat` after n steps. */
  lemma CutHere(g: Geo, before: seq<FatMap>, steps: seq<FatMap>, n: nat, fats: seq<FatMap>, c: nat, v: nat, after: seq<FatMap>)
    requires n <= |steps| && fats == before + steps[..n] && |fats| > 0
    requires after == fats || (g.fsType == Fat12 && Straddles(g, c) && g.ValidCluster(c) && c < |fats[|fats| - 1]|
      && after == fats + [HalfPut(fats[|fats| - 1], c, v)])
    ensures CutShort(g, before, steps, after)
  {
    hide Straddles, HalfPut;
    if after != fats {
      assert after[..|after| - 1] == fats;
      assert TornBy(g, fats[|fats| - 1], after[|after| - 1], c, v);
    }
    assert CutShortAt(g, before, steps, after, n);
  }

  /** Every step of an allocation leaves a well-formed FAT. */
  lemma AllocIsSafe(fat: FatMap, clst: nat, r: nat, eoc: nat)
    requires WellFormed(fat) && InRange(fat, r) && fat[r] == 0 && eoc >= |fat|
    requires clst != 0 ==> InRange(fat, clst) && fat[clst] >= |fat|
    ensures AllWellFormed(AllocSteps(fat, clst, r, eoc))
  {
    MarkEnd(fat, r, eoc);
    if clst != 0 { LinkEnd(fat[r := eoc], clst, r); }
    hide WellFormed;
  }

  /** How far an allocation got that a disk error cut short. */
  ghost predicate AllocCut(g: Geo, before: seq<FatMap>, fat: FatMap, clst: nat, scl: nat, after: seq<FatMap>)
  {
    || after == before
    || ((clst != 0 ==> InRange(fat, clst) && fat[clst] >= |fat|)
        && exists r: nat :: FirstFree(fat, scl, r) && CutShort(g, before, AllocSteps(fat, clst, r, EndMark(g)), after))
  }

  lemma AllocCutSafe(g: Geo, before: seq<FatMap>, fat: FatMap, clst: nat, scl: nat, after: seq<FatMap>)
    requires AllocCut(g, before, fat, clst, scl, after) && AllWellFormed(before) && WellFormed(fat) && EndMark(g) >= |fat|
    ensures SafeSoFar(g, after)
  {
    if after != before {
      var r: nat :| FirstFree(fat, scl, r) && CutShort(g, before, AllocSteps(fat, clst, r, EndMark(g)), after);
      hide WellFormed, CutShort;
      AllocIsSafe(fat, clst, r, EndMark(g));
      CutShortSafe(g, before, AllocSteps(fat, clst, r, EndMark(g)), after);
    }
  }

  /** Whatever create_chain(clst) answers on a well-formed FAT, the FATs on the way are safe. */
  lemma CallIsSafe(g: Geo, before: seq<FatMap>, fat: FatMap, clst: nat, scl: nat, r: nat, after: seq<FatMap>)
    requires g.Sound() && |fat| == g.nFatent && AllWellFormed(before) && WellFormed(fat)
    requires r == DISK_ERROR ==> AllocCut(g, before, fat, clst, scl, after)
    requires r <= 1 || (r != DISK_ERROR && clst != 0 && Followed(fat, clst)) ==> after == before
    requires r > 1 && r != DISK_ERROR && clst != 0 ==> InRange(fat, clst) && fat[clst] >= 2
    requires r > 1 && r != DISK_ERROR && !(clst != 0 && Followed(fat, clst)) ==>
      FirstFree(fat, scl, r) && after == before + AllocSteps(fat, clst, r, EndMark(g))
    ensures if r == DISK_ERROR then SafeSoFar(g, after) else AllWellFormed(after)
  {
    LinkReadsBack(g, 0);
    hide Geo.Sound, WellFormed, EndMark;
    if r == DISK_ERROR {
      AllocCutSafe(g, before, fat, clst, scl, after);
    } else if r > 1 && !(clst != 0 && Followed(fat, clst)) {
      AllocIsSafe(fat, clst, r, EndMark(g));
      hide AllocSteps;
    }
  }

  lemma LastFat(fs: FatFs)
    requires fs.Valid()
    ensures |fs.fats| > 0 && fs.fats[|fs.fats| - 1] == fs.Fat() && |fs.Fat()| == fs.geo.nFatent
  {
  }

  /** The free-cluster count is unknown or right. */
  ghost predicate Counted(fat: FatMap, free: nat)
  {
    free == 0xFFFF_FFFF || free == FreeCount(fat)
  }

  /** Everything from behind scl up to ncl, around the end once wrapped, is in use. */
  ghost predicate Searched(fat: FatMap, scl: nat, ncl: nat, wrapped: bool)
  {
    && scl < |fat| && (if wrapped then 2 <= ncl < scl else scl <= ncl < |fat|)
    && (forall c :: scl < c < |fat| && (wrapped || c <= ncl) ==> fat[c] != 0)
    && (wrapped ==> forall c :: 2 <= c <= ncl ==> fat[c] != 0)
  }

  /** The cluster looked at next. */
  function NextToSearch(fat: FatMap, ncl: nat): nat
  {
    if ncl + 1 >= |fat| then 2 else ncl + 1
  }

  lemma SearchStep(fat: FatMap, scl: nat, ncl: nat, wrapped: bool)
    requires Searched(fat, scl, ncl, wrapped) && 1 <= scl < |fat| && |fat| >= 3
    ensures var next := NextToSearch(fat, ncl);
      && (ncl + 1 >= |fat| && 2 > scl ==> NoneFree(fat))
      && (!(ncl + 1 >= |fat| && 2 > scl) ==>
        && InRange(fat, next) && ncl < |fat| && (wrapped ==> ncl + 1 < |fat|)
        && (fat[next] == 0 ==> FirstFree(fat, scl, next))
        && (fat[next] == 1 ==> HasInvalid(fat))
        && (fat[next] != 0 && next == scl ==> NoneFree(fat))
        && (fat[next] != 0 && next != scl ==> Searched(fat, scl, next, wrapped || ncl + 1 >= |fat|)))
  {
  }

  /** The circular search of `create_chain`: 0 none free, 1 invalid entry met. */
  method FindFree(fs: FatFs, scl: nat) returns (ncl: nat)
    requires fs.Valid() && 1 <= scl < fs.geo.nFatent
    modifies fs`wflag, fs`winsect, fs`marks, fs.win, fs.disk
    ensures fs.Valid() && fs.Img() == old(fs.Img()) && fs.Grows()
    ensures ncl == DISK_ERROR ==> fs.disk.mayFail
    ensures ncl == 0 ==> NoneFree(fs.Fat())
    ensures ncl == 1 ==> HasInvalid(fs.Fat())
    ensures ncl >= 2 && ncl != DISK_ERROR ==> FirstFree(fs.Fat(), scl, ncl)
    ensures fs.winsect == old(fs.winsect) || fs.winsect == NO_SECTOR || fs.geo.InFat(fs.winsect)
    ensures old(fs.Mirrored()) && !fs.disk.mayFail ==> fs.Mirrored()
  {
    hide Times, Quotient, Remainder;
    hide Geo.Sound, FatFs.Ready, FatFs.Journaled, Traced, FatOf, FatFs.Img, FatFs.Mirrored, FirstFree, NoneFree, HasInvalid, Searched;
    ghost var fat := fs.Fat();
    VolumeBounds(fs);
    ghost var wrapped := false;
    ncl := scl;
    NothingSearched(fat, scl);
    while true
      invariant fs.Valid() && fs.Img() == old(fs.Img()) && fs.Grows()
      invariant fs.winsect == old(fs.winsect) || fs.winsect == NO_SECTOR || fs.geo.InFat(fs.winsect)
      invariant old(fs.Mirrored()) && !fs.disk.mayFail ==> fs.Mirrored()
      invariant Searched(fat, scl, ncl, wrapped)
      decreases !wrapped, |fat| - ncl
    {
      SearchStep(fat, scl, ncl, wrapped);
      ncl := ncl + 1;
      if ncl >= fs.geo.nFatent {
        ncl := 2;
        wrapped := true;
        if ncl > scl { return 0; }
      }
      var cs := GetFat(fs, ncl);
      if cs == 0 { return; }
      if cs == 1 || cs == DISK_ERROR { return cs; }
      if ncl == scl { return 0; }
    }
  }

  lemma NothingSearched(fat: FatMap, scl: nat)
    requires 1 <= scl < |fat|
    ensures Searched(fat, scl, scl, false)
  {
  }

  /** Nothing but the window's place and bookkeeping changed. */
  twostate predicate Untouched(fs: FatFs)
    reads fs, fs.win, fs.disk
  {
    && fs.Img() == old(fs.Img()) && fs.fats == old(fs.fats)
    && fs.freeClst == old(fs.freeClst) && fs.lastClst == old(fs.lastClst)
  }

  /** `create_chain`: 0 no free cluster, 1 invalid FAT value, 0xFFFFFFFF disk error,
      otherwise the cluster that now follows clst (or starts a chain when clst is 0). */
  method CreateChain(fs: FatFs, clst: nat) returns (r: nat)
    requires fs.Valid()
    modifies fs`wflag, fs`winsect, fs`marks, fs`log, fs`fats, fs`lastClst, fs`freeClst, fs`fsiDirty, fs.win, fs.disk
    ensures fs.Valid() && fs.Grows()
    ensures OnlyFat(fs.geo, old(fs.Img()), fs.Img())
    ensures r == DISK_ERROR ==> fs.disk.mayFail
    ensures r == DISK_ERROR ==>
      AllocCut(fs.geo, old(fs.fats), old(fs.Fat()), clst, SearchStart(clst, old(fs.lastClst), fs.geo.nFatent), fs.fats)
    ensures r == 0 ==> NoneFree(fs.Fat()) && Untouched(fs) && (clst == 0 || !Followed(fs.Fat(), clst))
    ensures r == 1 ==> Untouched(fs) && (HasInvalid(fs.Fat()) || (clst != 0 && (!InRange(fs.Fat(), clst) || fs.Fat()[clst] == 0)))
    ensures r != 1 && r != DISK_ERROR && clst != 0 ==> InRange(old(fs.Fat()), clst) && old(fs.Fat())[clst] >= 2
    ensures r >= 2 && r != DISK_ERROR && clst != 0 && Followed(old(fs.Fat()), clst) ==> r == fs.Fat()[clst] && Untouched(fs)
    ensures r >= 2 && r != DISK_ERROR && (clst == 0 || !Followed(old(fs.Fat()), clst)) ==>
      && FirstFree(old(fs.Fat()), SearchStart(clst, old(fs.lastClst), fs.geo.nFatent), r)
      && fs.fats == old(fs.fats) + AllocSteps(old(fs.Fat()), clst, r, EndMark(fs.geo))
      && fs.Fat() == Final(old(fs.Fat()), AllocSteps(old(fs.Fat()), clst, r, EndMark(fs.geo)))
      && fs.lastClst == r
      && fs.freeClst == (if old(fs.freeClst) <= fs.geo.nFatent - 2 then U32(old(fs.freeClst) - 1) else old(fs.freeClst))
    ensures r >= 2 && r != DISK_ERROR && (clst == 0 || !Followed(old(fs.Fat()), clst)) ==>
      fs.Fat() == if clst == 0 then old(fs.Fat())[r := EndMark(fs.geo)] else old(fs.Fat())[r := EndMark(fs.geo)][clst := r]
    ensures r >= 2 && r != DISK_ERROR && clst != 0 && !Followed(old(fs.Fat()), clst) ==> FirstFree(old(fs.Fat()), clst, r)
    ensures r >= 2 && r != DISK_ERROR && clst == 0 ==>
      FirstFree(old(fs.Fat()), if 0 < old(fs.lastClst) < fs.geo.nFatent then old(fs.lastClst) else 1, r)
    ensures fs.winsect == old(fs.winsect) || fs.winsect == NO_SECTOR || fs.geo.InFat(fs.winsect)
    ensures old(fs.Mirrored()) && !fs.disk.mayFail ==> fs.Mirrored()
  {
    hide Geo.Sound, FatFs.Ready, FatFs.Journaled, Traced, FatOf, FatFs.Img, FatFs.Mirrored, EndMark, NoneFree, HasInvalid, Cut, OnlyFat;
    VolumeBounds(fs);
    OnlyFatSelf(fs.geo, fs.Img());
    var scl;
    if clst == 0 {
      scl := fs.lastClst;
      if scl == 0 || scl >= fs.geo.nFatent { scl := 1; }
    } else {
      var cs := GetFat(fs, clst);
      if cs < 2 {
        if cs == 1 { InvalidIs(fs.Fat(), clst); }
        return 1;
      }
      if cs == DISK_ERROR { return cs; }
      if cs < fs.geo.nFatent { return cs; }
      scl := clst;
    }
    hide AllocSteps, CutShort;
    r := FindFree(fs, scl);
    if r < 2 || r == DISK_ERROR { return; }
    FreshFat(fs.Fat(), clst, r, EndMark(fs.geo));
    r := Attach(fs, clst, r);
  }

  lemma FreshFat(fat: FatMap, clst: nat, r: nat, eoc: nat)
    requires r < |fat| && clst < |fat|
    ensures Final(fat, AllocSteps(fat, clst, r, eoc)) == if clst == 0 then fat[r := eoc] else fat[r := eoc][clst := r]
  {
  }

  lemma OnlyFatSelf(g: Geo, a: Image)
    ensures OnlyFat(g, a, a)
  {
  }

  lemma OnlyFatTrans(g: Geo, a: Image, b: Image, c: Image)
    requires OnlyFat(g, a, b) && OnlyFat(g, b, c)
    ensures OnlyFat(g, a, c)
  {
  }

  lemma InvalidIs(fat: FatMap, c: nat)
    ensures InRange(fat, c) && fat[c] == 1 ==> HasInvalid(fat)
  {
  }

  function AllocError(res: FResult): nat
  {
    if res == DiskErr then DISK_ERROR else 1
  }

  lemma StepsAre(fat: FatMap, clst: nat, r: nat, eoc: nat)
    requires InRange(fat, r) && (clst != 0 ==> InRange(fat, clst))
    ensures clst == 0 ==> AllocSteps(fat, clst, r, eoc) == [fat[r := eoc]]
    ensures clst != 0 ==> AllocSteps(fat, clst, r, eoc) == [fat[r := eoc]] + [fat[r := eoc][clst := r]]
  {
  }

  /** The tail of `create_chain`: mark the cluster found, link it, update FSINFO. */
  method Attach(fs: FatFs, clst: nat, found: nat) returns (ncl: nat)
    requires fs.Valid() && InRange(fs.Fat(), found)
    requires clst != 0 ==> InRange(fs.Fat(), clst)
    modifies fs`wflag, fs`winsect, fs`marks, fs`log, fs`fats, fs`lastClst, fs`freeClst, fs`fsiDirty, fs.win, fs.disk
    ensures fs.Valid() && fs.Grows()
    ensures OnlyFat(fs.geo, old(fs.Img()), fs.Img())
    ensures ncl == DISK_ERROR ==> fs.disk.mayFail
    ensures ncl == found || ncl == DISK_ERROR
    ensures ncl == DISK_ERROR ==> CutShort(fs.geo, old(fs.fats), AllocSteps(old(fs.Fat()), clst, found, EndMark(fs.geo)), fs.fats)
    ensures ncl != DISK_ERROR ==>
      && fs.fats == old(fs.fats) + AllocSteps(old(fs.Fat()), clst, ncl, EndMark(fs.geo))
      && fs.Fat() == Final(old(fs.Fat()), AllocSteps(old(fs.Fat()), clst, ncl, EndMark(fs.geo)))
      && fs.lastClst == ncl
      && fs.freeClst == (if old(fs.freeClst) <= fs.geo.nFatent - 2 then U32(old(fs.freeClst) - 1) else old(fs.freeClst))
    ensures fs.winsect == old(fs.winsect) || fs.winsect == NO_SECTOR || fs.geo.InFat(fs.winsect)
    ensures old(fs.Mirrored()) && !fs.disk.mayFail ==> fs.Mirrored()
  {
    hide Times, Quotient, Remainder;
    hide Geo.Sound, FatFs.Ready, FatFs.Journaled, Traced, FatOf, FatFs.Img, FatFs.Mirrored, Cut, OnlyFat;
    VolumeBounds(fs);
    hide EndMark, AllocSteps;
    ncl := found;
    var res := MarkAndLink(fs, clst, found);
    if res == Ok {
      fs.lastClst := ncl;
      if fs.freeClst <= fs.geo.nFatent - 2 { fs.freeClst := U32(fs.freeClst - 1); }
      fs.fsiDirty := true;
    } else {
      ncl := AllocError(res);
    }
  }

  method MarkAndLink(fs: FatFs, clst: nat, ncl: nat) returns (res: FResult)
    requires fs.Valid() && InRange(fs.Fat(), ncl)
    requires clst != 0 ==> InRange(fs.Fat(), clst)
    modifies fs`wflag, fs`winsect, fs`marks, fs`log, fs`fats, fs.win, fs.disk
    ensures fs.Valid() && fs.Grows()
    ensures OnlyFat(fs.geo, old(fs.Img()), fs.Img())
    ensures res == Ok || (res == DiskErr && fs.disk.mayFail)
    ensures res == Ok ==>
      && fs.fats == old(fs.fats) + AllocSteps(old(fs.Fat()), clst, ncl, EndMark(fs.geo))
      && fs.Fat() == Final(old(fs.Fat()), AllocSteps(old(fs.Fat()), clst, ncl, EndMark(fs.geo)))
    ensures res != Ok ==> CutShort(fs.geo, old(fs.fats), AllocSteps(old(fs.Fat()), clst, ncl, EndMark(fs.geo)), fs.fats)
    ensures fs.winsect == old(fs.winsect) || fs.winsect == NO_SECTOR || fs.geo.InFat(fs.winsect)
    ensures old(fs.Mirrored()) && !fs.disk.mayFail ==> fs.Mirrored()
  {
    hide Geo.Sound, FatFs.Ready, FatFs.Journaled, Traced, FatOf, FatFs.Img, FatFs.Mirrored, Cut, OnlyFat;
    VolumeBounds(fs);
    LinkReadsBack(fs.geo, ncl);
    StepsAre(fs.Fat(), clst, ncl, EndMark(fs.geo));
    LastFat(fs);
    ghost var img0, fats0, steps := fs.Img(), fs.fats, AllocSteps(fs.Fat(), clst, ncl, EndMark(fs.geo));
    hide AllocSteps, Marked, Linked, Straddles, HalfPut, CutShort;
    res := PutFat(fs, ncl, 0xFFFF_FFFF);
    if res != Ok {
      CutHere(fs.geo, fats0, steps, 0, fats0, ncl, 0xFFFF_FFFF, fs.fats);
      return;
    }
    if clst != 0 {
      ghost var img1, fat1, fats1 := fs.Img(), fs.Fat(), fs.fats;
      assert fats1 == fats0 + steps[..1];
      res := PutFat(fs, clst, ncl);
      OnlyFatTrans(fs.geo, img0, img1, fs.Img());
      if res != Ok { CutHere(fs.geo, fats0, steps, 1, fats1, clst, ncl, fs.fats); }
      assert fats0 + [fat1] + [fs.Fat()] == fats0 + ([fat1] + [fs.Fat()]);
    }
  }

  /** One pass of the loop of `remove_chain`: nxt is the entry read; 0 and 1 stop the walk. */
  method FreeOne(fs: FatFs, clst: nat) returns (res: FResult, nxt: nat)
    requires fs.Valid() && InRange(fs.Fat(), clst)
    modifies fs`wflag, fs`winsect, fs`marks, fs`log, fs`fats, fs`freeClst, fs`fsiDirty, fs.win, fs.disk
    ensures fs.Valid() && fs.Grows()
    ensures OnlyFat(fs.geo, old(fs.Img()), fs.Img())
    ensures res == Ok || (res == DiskErr && fs.disk.mayFail)
    ensures res == Ok ==> nxt == old(fs.Fat())[clst]
    ensures res == Ok && nxt <= 1 ==> Untouched(fs)
    ensures res == Ok && nxt > 1 ==>
      && fs.Fat() == old(fs.Fat())[clst := 0]
      && fs.fats == old(fs.fats) + [fs.Fat()]
      && fs.freeClst == Bumped(old(fs.freeClst), fs.geo.nFatent, 1)
    ensures res != Ok ==>
      || fs.fats == old(fs.fats)
      || (fs.geo.fsType == Fat12 && Straddles(fs.geo, clst) && fs.fats == old(fs.fats) + [HalfPut(old(fs.Fat()), clst, 0)])
    ensures fs.winsect == old(fs.winsect) || fs.winsect == NO_SECTOR || fs.geo.InFat(fs.winsect)
    ensures old(fs.Mirrored()) && !fs.disk.mayFail ==> fs.Mirrored()
  {
    hide Geo.Sound, FatFs.Ready, FatFs.Journaled, Traced, FatOf, FatFs.Img, FatFs.Mirrored, OnlyFat;
    VolumeBounds(fs);
    LinkReadsBack(fs.geo, 0);
    OnlyFatSelf(fs.geo, fs.Img());
    hide Cut;
    res := Ok;
    nxt := GetFat(fs, clst);
    if nxt == 0 || nxt == 1 { return; }
    if nxt == DISK_ERROR { res := DiskErr; return; }
    res := PutFat(fs, clst, 0);
    if res != Ok { return; }
    if fs.freeClst < fs.geo.nFatent - 2 {
      fs.freeClst := fs.freeClst + 1;
      fs.fsiDirty := true;
    }
  }

  /** The FAT the walk starts on: an end mark is put on pclst first, if one is given. */
  function CutBefore(fat: FatMap, pclst: nat, eoc: nat): (f: FatMap)
    ensures |f| == |fat|
  {
    if pclst != 0 && pclst < |fat| then fat[pclst := eoc] else fat
  }

  function RemoveSteps(fat: FatMap, clst: nat, pclst: nat, eoc: nat): seq<FatMap>
  {
    (if pclst != 0 then [CutBefore(fat, pclst, eoc)] else []) + Release(CutBefore(fat, pclst, eoc), clst)
  }

  /** `remove_chain`: frees the clusters from clst on and ends the chain at pclst. */
  method RemoveChain(fs: FatFs, clst: nat, pclst: nat) returns (res: FResult)
    requires fs.Valid()
    modifies fs`wflag, fs`winsect, fs`marks, fs`log, fs`fats, fs`freeClst, fs`fsiDirty, fs.win, fs.disk
    ensures fs.Valid() && fs.Grows()
    ensures OnlyFat(fs.geo, old(fs.Img()), fs.Img())
    ensures res == Ok || res == IntErr || (res == DiskErr && fs.disk.mayFail)
    ensures res == IntErr ==>
      || !InRange(old(fs.Fat()), clst) || (pclst != 0 && !InRange(old(fs.Fat()), pclst))
      || MeetsInvalid(CutBefore(old(fs.Fat()), pclst, EndMark(fs.geo)), clst)
    ensures res == Ok ==>
      && InRange(old(fs.Fat()), clst) && (pclst != 0 ==> InRange(old(fs.Fat()), pclst))
      && !MeetsInvalid(CutBefore(old(fs.Fat()), pclst, EndMark(fs.geo)), clst)
      && fs.fats == old(fs.fats) + RemoveSteps(old(fs.Fat()), clst, pclst, EndMark(fs.geo))
      && fs.Fat() == Final(old(fs.Fat()), RemoveSteps(old(fs.Fat()), clst, pclst, EndMark(fs.geo)))
      && fs.freeClst == Bumped(old(fs.freeClst), fs.geo.nFatent, |Release(CutBefore(old(fs.Fat()), pclst, EndMark(fs.geo)), clst)|)
    ensures res != Ok ==> CutShort(fs.geo, old(fs.fats), RemoveSteps(old(fs.Fat()), clst, pclst, EndMark(fs.geo)), fs.fats)
    ensures fs.winsect == old(fs.winsect) || fs.winsect == NO_SECTOR || fs.geo.InFat(fs.winsect)
    ensures old(fs.Mirrored()) && !fs.disk.mayFail ==> fs.Mirrored()
  {
    hide Straddles, HalfPut, CutShort, CutBefore, Cut, RemoveSteps, AllWellFormed;
    hide Geo.Sound, FatFs.Ready, FatFs.Journaled, Traced, FatOf, FatFs.Img, FatFs.Mirrored, OnlyFat, EndMark, MeetsInvalid, Release, Bumped;
    VolumeBounds(fs);
    OnlyFatSelf(fs.geo, fs.Img());
    LastFat(fs);
    ghost var img0, fat0, fats0 := fs.Img(), fs.Fat(), fs.fats;
    ghost var steps := RemoveSteps(fat0, clst, pclst, EndMark(fs.geo));
    if clst < 2 || clst >= fs.geo.nFatent {
      CutHere(fs.geo, fats0, steps, 0, fats0, clst, 0, fats0);
      return IntErr;
    }
    ghost var pre;
    res, pre := EndBefore(fs, pclst);
    if res != Ok {
      assert steps[..0] == [];
      CutHere(fs.geo, fats0, steps, 0, fats0, pclst, 0xFFFF_FFFF, fs.fats);
      return;
    }
    ghost var img1 := fs.Img();
    res := FreeWalk(fs, clst);
    OnlyFatTrans(fs.geo, img0, img1, fs.Img());
    RemoveEnds(fs.geo, fat0, clst, pclst, fats0, fs.fats);
  }

  /** An end mark goes on the cluster in front of the chain to be removed, if there is one. */
  method EndBefore(fs: FatFs, pclst: nat) returns (res: FResult, ghost pre: seq<FatMap>)
    requires fs.Valid()
    modifies fs`wflag, fs`winsect, fs`marks, fs`log, fs`fats, fs.win, fs.disk
    ensures fs.Valid() && fs.Grows()
    ensures OnlyFat(fs.geo, old(fs.Img()), fs.Img())
    ensures res == Ok || res == IntErr || (res == DiskErr && fs.disk.mayFail)
    ensures res == IntErr ==> pclst != 0 && !InRange(old(fs.Fat()), pclst)
    ensures pre == if pclst != 0 then [CutBefore(old(fs.Fat()), pclst, EndMark(fs.geo))] else []
    ensures res == Ok ==>
      && (pclst != 0 ==> InRange(old(fs.Fat()), pclst))
      && fs.Fat() == CutBefore(old(fs.Fat()), pclst, EndMark(fs.geo)) && fs.fats == old(fs.fats) + pre
    ensures res != Ok ==>
      || fs.fats == old(fs.fats)
      || (fs.geo.fsType == Fat12 && Straddles(fs.geo, pclst) && fs.geo.ValidCluster(pclst) && pclst < |old(fs.Fat())|
          && fs.fats == old(fs.fats) + [HalfPut(old(fs.Fat()), pclst, 0xFFFF_FFFF)])
    ensures fs.winsect == old(fs.winsect) || fs.winsect == NO_SECTOR || fs.geo.InFat(fs.winsect)
    ensures old(fs.Mirrored()) && !fs.disk.mayFail ==> fs.Mirrored()
  {
    hide Geo.Sound, FatFs.Ready, FatFs.Journaled, Traced, FatOf, FatFs.Img, FatFs.Mirrored, OnlyFat, EndMark, Cut, Straddles, HalfPut;
    OnlyFatSelf(fs.geo, fs.Img());
    EndMarkIs(fs.geo);
    LastFat(fs);
    res, pre := Ok, [];
    if pclst != 0 {
      pre := [CutBefore(fs.Fat(), pclst, EndMark(fs.geo))];
      res := PutFat(fs, pclst, 0xFFFF_FFFF);
    }
  }

  /** The end mark and the walk together. */
  lemma RemoveEnds(g: Geo, fat: FatMap, clst: nat, pclst: nat, before: seq<FatMap>, after: seq<FatMap>)
    ensures var f, eoc := CutBefore(fat, pclst, EndMark(g)), EndMark(g);
      var pre, steps := if pclst != 0 then [f] else [], RemoveSteps(fat, clst, pclst, eoc);
      && (after == before + pre + Release(f, clst) ==> after == before + steps)
      && Final(f, Release(f, clst)) == Final(fat, steps)
      && (CutShort(g, before + pre, Release(f, clst), after) ==> CutShort(g, before, steps, after))
  {
    hide TornLast;
    var f := CutBefore(fat, pclst, EndMark(g));
    var pre, rest := if pclst != 0 then [f] else [], Release(f, clst);
    assert before + pre + rest == before + (pre + rest);
    if CutShort(g, before + pre, rest, after) {
      var n: nat :| CutShortAt(g, before + pre, rest, after, n);
      assert before + (pre + rest)[..|pre| + n] == before + pre + rest[..n];
      assert CutShortAt(g, before, pre + rest, after, |pre| + n);
    }
  }

  lemma EndMarkIs(g: Geo)
    ensures EndMark(g) == Cut(g.fsType, 0xFFFF_FFFF)
  {
  }

  /** The loop of `remove_chain`. It ends on every FAT, well formed or not, because each
      pass turns a nonzero entry into zero. */
  method FreeWalk(fs: FatFs, start: nat) returns (res: FResult)
    requires fs.Valid() && InRange(fs.Fat(), start)
    modifies fs`wflag, fs`winsect, fs`marks, fs`log, fs`fats, fs`freeClst, fs`fsiDirty, fs.win, fs.disk
    ensures fs.Valid() && fs.Grows()
    ensures OnlyFat(fs.geo, old(fs.Img()), fs.Img())
    ensures res == Ok || res == IntErr || (res == DiskErr && fs.disk.mayFail)
    ensures res == IntErr ==> MeetsInvalid(old(fs.Fat()), start)
    ensures res == Ok ==>
      && !MeetsInvalid(old(fs.Fat()), start)
      && fs.fats == old(fs.fats) + Release(old(fs.Fat()), start)
      && fs.Fat() == Final(old(fs.Fat()), Release(old(fs.Fat()), start))
      && fs.freeClst == Bumped(old(fs.freeClst), fs.geo.nFatent, |Release(old(fs.Fat()), start)|)
    ensures res != Ok ==> CutShort(fs.geo, old(fs.fats), Release(old(fs.Fat()), start), fs.fats)
    ensures fs.winsect == old(fs.winsect) || fs.winsect == NO_SECTOR || fs.geo.InFat(fs.winsect)
    ensures old(fs.Mirrored()) && !fs.disk.mayFail ==> fs.Mirrored()
  {
    hide Straddles, HalfPut, CutShort;
    hide Geo.Sound, FatFs.Ready, FatFs.Journaled, Traced, FatOf, FatFs.Img, FatFs.Mirrored, OnlyFat, MeetsInvalid, Release, Bumped;
    OnlyFatSelf(fs.geo, fs.Img());
    ghost var img0, fat0, fats0, free0 := fs.Img(), fs.Fat(), fs.fats, fs.freeClst;
    ghost var done: seq<FatMap> := [];
    var clst: nat := start;
    while true
      invariant fs.Valid() && fs.Grows() && OnlyFat(fs.geo, img0, fs.Img())
      invariant fs.winsect == old(fs.winsect) || fs.winsect == NO_SECTOR || fs.geo.InFat(fs.winsect)
      invariant old(fs.Mirrored()) && !fs.disk.mayFail ==> fs.Mirrored()
      invariant InRange(fs.Fat(), clst)
      invariant Walked(fat0, start, free0, done, fs.Fat(), clst, fs.freeClst)
      invariant fs.fats == fats0 + done
      decreases |fs.Fat()| - FreeCount(fs.Fat())
    {
      ghost var img1, fat1, free1, fats1 := fs.Img(), fs.Fat(), fs.freeClst, fs.fats;
      LastFat(fs);
      assert Release(fat0, start)[..|done|] == done;
      var nxt;
      res, nxt := FreeOne(fs, clst);
      OnlyFatTrans(fs.geo, img0, img1, fs.Img());
      if res != Ok {
        CutHere(fs.geo, fats0, Release(fat0, start), |done|, fats1, clst, 0, fs.fats);
        return;
      }
      if nxt <= 1 {
        WalkStops(fat0, start, free0, done, fat1, clst, free1);
        if nxt == 1 { CutHere(fs.geo, fats0, Release(fat0, start), |done|, fats1, clst, 0, fs.fats); }
        return if nxt == 1 then IntErr else Ok;
      }
      WalkStep(fat0, start, free0, done, fat1, clst, free1);
      done := done + [fs.Fat()];
      clst := nxt;
      if clst >= fs.geo.nFatent {
        WalkEnds(fat0, start, free0, done, fs.Fat(), clst, fs.freeClst);
        return;
      }
    }
  }

  /** After `done`, the walk from `start` continues at clst on fat. */
  ghost predicate Walked(fat0: FatMap, start: nat, free0: nat, done: seq<FatMap>, fat: FatMap, clst: nat, free: nat)
  {
    && |fat| == |fat0|
    && fat == Final(fat0, done)
    && Release(fat0, start) == done + Release(fat, clst)
    && MeetsInvalid(fat0, start) == MeetsInvalid(fat, clst)
    && Bumped(free0, |fat0|, |Release(fat0, start)|) == Bumped(free, |fat|, |Release(fat, clst)|)
  }

  lemma WalkStep(fat0: FatMap, start: nat, free0: nat, done: seq<FatMap>, fat: FatMap, clst: nat, free: nat)
    requires Walked(fat0, start, free0, done, fat, clst, free)
    requires InRange(fat, clst) && fat[clst] > 1
    ensures Walked(fat0, start, free0, done + [fat[clst := 0]], fat[clst := 0], fat[clst], Bumped(free, |fat|, 1))
    ensures |fat| - FreeCount(fat[clst := 0]) < |fat| - FreeCount(fat)
  {
    FreeCountUpdate(fat, clst, 0);
    var f := fat[clst := 0];
    assert Release(fat, clst) == [f] + Release(f, fat[clst]);
    assert done + ([f] + Release(f, fat[clst])) == done + [f] + Release(f, fat[clst]);
    var k := |Release(fat, clst)|;
    assert Bumped(free, |fat|, k) == Bumped(Bumped(free, |fat|, 1), |fat|, k - 1) by { assert Bumped(free, |fat|, 1) == if free < |fat| - 2 then free + 1 else free; }
  }

  lemma WalkStops(fat0: FatMap, start: nat, free0: nat, done: seq<FatMap>, fat: FatMap, clst: nat, free: nat)
    requires Walked(fat0, start, free0, done, fat, clst, free)
    requires InRange(fat, clst) && fat[clst] <= 1
    ensures MeetsInvalid(fat0, start) <==> fat[clst] == 1
    ensures Release(fat0, start) == done && free == Bumped(free0, |fat0|, |done|)
  {
  }

  lemma WalkEnds(fat0: FatMap, start: nat, free0: nat, done: seq<FatMap>, fat: FatMap, clst: nat, free: nat)
    requires Walked(fat0, start, free0, done, fat, clst, free)
    requires clst >= |fat|
    ensures !MeetsInvalid(fat0, start)
    ensures Release(fat0, start) == done && free == Bumped(free0, |fat0|, |done|)
  {
  }
}
