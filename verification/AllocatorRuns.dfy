/** Whole runs of the allocator: chains never cross, the free count stays right, and on
    FAT16/32 a crash at any moment leaves a well-formed FAT on the medium. */
module AllocatorRuns {
  import opened Allocator
  import opened Arith
  import opened Bytes
  import opened Chains
  import opened ChainEdits
  import opened FatEntries
  import opened FatTable
  import opened Geometry
  import opened Window

  /** The chains that directory entries refer to: in use, and linked from nowhere. */
  ghost predicate Owned(fat: FatMap, heads: set<nat>)
  {
    forall h :: h in heads ==> InRange(fat, h) && fat[h] != 0 && NoPredecessor(fat, h)
  }

  /** A chain from an owned head contains no other owned head. */
  lemma OwnedOutside(fat: FatMap, s: seq<nat>, i: nat, heads: set<nat>)
    requires IsChain(fat, s) && Owned(fat, heads) && 0 < i < |s|
    ensures s[i] !in heads
  {
    assert fat[s[i - 1]] == s[i] && InRange(fat, s[i]);
    assert Link(fat, s[i - 1]);
  }

  /** Each put_fat of create_chain keeps the FAT well formed, owned chains stay apart, and
      the free count falls by one. */
  lemma GrowKeeps(fat: FatMap, heads: set<nat>, clst: nat, scl: nat, r: nat, eoc: nat)
    requires WellFormed(fat) && Owned(fat, heads) && eoc >= |fat|
    requires FirstFree(fat, scl, r)
    requires clst != 0 ==> InRange(fat, clst) && fat[clst] >= |fat|
    ensures var steps := AllocSteps(fat, clst, r, eoc);
      && AllWellFormed(steps) && WellFormed(Final(fat, steps))
      && Owned(Final(fat, steps), heads + (if clst == 0 then {r} else {}))
      && FreeCount(Final(fat, steps)) == FreeCount(fat) - 1
  {
    if clst == 0 {
      StartKeeps(fat, heads, r, eoc);
    } else {
      StretchKeeps(fat, heads, clst, r, eoc);
    }
  }

  lemma StartKeeps(fat: FatMap, heads: set<nat>, r: nat, eoc: nat)
    requires WellFormed(fat) && Owned(fat, heads) && eoc >= |fat| && InRange(fat, r) && fat[r] == 0
    ensures var f := Marked(fat, r, eoc);
      WellFormed(f) && Owned(f, heads + {r}) && FreeCount(f) == FreeCount(fat) - 1
  {
    StartChain(fat, r, eoc);
    hide WellFormed;
    var f := Marked(fat, r, eoc);
    forall h, d | h in heads && 0 <= d < |fat| && Link(f, d) ensures f[d] != h { assert Link(fat, d); }
  }

  lemma StretchKeeps(fat: FatMap, heads: set<nat>, clst: nat, r: nat, eoc: nat)
    requires WellFormed(fat) && Owned(fat, heads) && eoc >= |fat| && InRange(fat, r) && fat[r] == 0
    requires InRange(fat, clst) && fat[clst] >= |fat|
    ensures var f := Linked(fat, clst, r, eoc);
      WellFormed(Marked(fat, r, eoc)) && WellFormed(f) && Owned(f, heads) && FreeCount(f) == FreeCount(fat) - 1
  {
    Stretch(fat, [clst], r, eoc);
    hide WellFormed;
    var f := Linked(fat, clst, r, eoc);
    forall h, d | h in heads && 0 <= d < |fat| && Link(f, d) ensures f[d] != h { assert d == clst || Link(fat, d); }
  }

  /** Each put_fat of remove_chain keeps the FAT well formed; the walk frees exactly the
      rest of one chain, all other owned chains survive, and the free count follows. */
  lemma CutKeeps(fat: FatMap, heads: set<nat>, clst: nat, pclst: nat, eoc: nat)
    requires WellFormed(fat) && Owned(fat, heads) && eoc >= |fat|
    requires if pclst == 0 then clst in heads else InRange(fat, pclst) && InRange(fat, clst) && fat[pclst] == clst
    ensures var steps := RemoveSteps(fat, clst, pclst, eoc);
      && AllWellFormed(steps) && WellFormed(Final(fat, steps))
      && Owned(Final(fat, steps), heads - {clst})
      && FreeCount(CutBefore(fat, pclst, eoc)) == FreeCount(fat)
      && !MeetsInvalid(CutBefore(fat, pclst, eoc), clst)
  {
    assert pclst != 0 ==> Link(fat, pclst);
    var s := ChainExists(fat, clst);
    var f := CutBefore(fat, pclst, eoc);
    CutRest(fat, heads, clst, pclst, eoc, s);
    forall h | h in heads - {clst} ensures h !in s {
      forall i | 0 <= i < |s| ensures s[i] != h { if i > 0 { OwnedOutside(fat, s, i, heads); } }
    }
    hide WellFormed, RemoveSteps, Release, Final;
    FewerLinks(fat, Zeroed(f, s), heads - {clst});
    NeverInvalid(f, clst);
  }

  /** What remove_chain frees is the rest of the chain from clst on, and nothing else. */
  lemma CutRest(fat: FatMap, heads: set<nat>, clst: nat, pclst: nat, eoc: nat, s: seq<nat>)
    requires WellFormed(fat) && Owned(fat, heads) && eoc >= |fat| && IsChain(fat, s) && s[0] == clst
    requires if pclst == 0 then clst in heads else InRange(fat, pclst) && InRange(fat, clst) && fat[pclst] == clst
    ensures var f := CutBefore(fat, pclst, eoc);
      && Final(fat, RemoveSteps(fat, clst, pclst, eoc)) == Zeroed(f, s)
      && AllWellFormed(RemoveSteps(fat, clst, pclst, eoc)) && WellFormed(Zeroed(f, s))
      && FreeCount(f) == FreeCount(fat)
  {
    var u := if pclst == 0 then [] else [pclst];
    assert IsChain(fat, u + s) by { if pclst == 0 { assert u + s == s; } }
    var f := CutBefore(fat, pclst, eoc);
    assert f == Ended(fat, u, eoc);
    hide WellFormed, Release, RemoveSteps, Final, Zeroed, IsChain;
    RemoveTail(fat, u, s, eoc);
    if pclst != 0 { FreeCountUpdate(fat, pclst, eoc); }
    LastStep(fat, f, clst, pclst, eoc, s);
  }

  lemma LastStep(fat: FatMap, f: FatMap, clst: nat, pclst: nat, eoc: nat, s: seq<nat>)
    requires f == CutBefore(fat, pclst, eoc) && WellFormed(f) && |s| > 0 && |Release(f, clst)| == |s|
    requires Final(f, Release(f, clst)) == Zeroed(f, s)
    requires forall i :: 0 <= i < |s| ==> WellFormed(Release(f, clst)[i])
    ensures Final(fat, RemoveSteps(fat, clst, pclst, eoc)) == Zeroed(f, s)
    ensures AllWellFormed(RemoveSteps(fat, clst, pclst, eoc)) && WellFormed(Zeroed(f, s))
  {
  }

  /** Removing links and clusters outside the heads keeps the heads owned. */
  lemma FewerLinks(fat: FatMap, f: FatMap, heads: set<nat>)
    requires Owned(fat, heads) && |f| == |fat|
    requires forall d :: 0 <= d < |fat| && Link(f, d) ==> f[d] == fat[d]
    requires forall h :: h in heads ==> h < |f| && f[h] != 0
    ensures Owned(f, heads)
  {
    forall h, d | h in heads && 0 <= d < |f| && Link(f, d) ensures f[d] != h { assert Link(fat, d); }
  }

  lemma {:induction false} NeverInvalid(fat: FatMap, c: nat)
    requires forall d :: 2 <= d < |fat| ==> fat[d] != 1
    ensures !MeetsInvalid(fat, c)
    decreases |fat| - FreeCount(fat)
  {
    if InRange(fat, c) && fat[c] != 0 {
      FreeCountUpdate(fat, c, 0);
      FreeBelow(fat, 2, c);
      NeverInvalid(fat[c := 0], fat[c]);
    }
  }

  // ----- power cuts

  /** A path leads from t to c. */
  ghost predicate LeadsTo(fat: FatMap, t: nat, c: nat)
  {
    exists s :: PathFromTo(fat, s, t, c)
  }

  ghost predicate PathFromTo(fat: FatMap, s: seq<nat>, t: nat, c: nat)
  {
    |s| > 0 && IsPath(fat, s) && s[0] == t && s[|s| - 1] == c
  }

  /** Entry c may become t: if it frees c nothing links to c, and if it is a link it names a
      cluster in use that no other one links to and that does not lead back to c. */
  ghost predicate MayBecome(fat: FatMap, c: nat, t: nat)
  {
    && t != 1
    && (t == 0 ==> NoPredecessor(fat, c))
    && (InRange(fat, t) ==>
      && fat[t] != 0 && !LeadsTo(fat, t, c)
      && forall d :: 0 <= d < |fat| && Link(fat, d) && fat[d] == t ==> d == c)
  }

  /** A store of any value in any entry keeps the FAT well formed exactly if it may. */
  lemma WellFormedUpdate(fat: FatMap, c: nat, t: nat)
    requires WellFormed(fat) && InRange(fat, c)
    ensures WellFormed(fat[c := t]) <==> MayBecome(fat, c, t)
  {
    if WellFormed(fat[c := t]) { MustHold(fat, c, t); }
    if MayBecome(fat, c, t) { Suffices(fat, c, t); }
  }

  lemma MustHold(fat: FatMap, c: nat, t: nat)
    requires WellFormed(fat) && InRange(fat, c) && WellFormed(fat[c := t])
    ensures MayBecome(fat, c, t)
  {
    var f := fat[c := t];
    assert f[c] != 1;
    forall d | 0 <= d < |fat| && Link(fat, d) && d != c ensures Link(f, d) && f[d] == fat[d] {}
    if t == 0 {
      forall d | 0 <= d < |fat| && Link(fat, d) ensures fat[d] != c { assert d != c ==> Link(f, d); }
    }
    if InRange(fat, t) {
      assert Link(f, c);
      if LeadsTo(fat, t, c) {
        var s :| PathFromTo(fat, s, t, c);
        Shortcut(fat, s, c, t);
      }
    }
  }

  /** A path back to c and the new link would close a cycle. */
  lemma {:induction false} Shortcut(fat: FatMap, s: seq<nat>, c: nat, t: nat)
    requires InRange(fat, c) && InRange(fat, t) && PathFromTo(fat, s, t, c) && WellFormed(fat[c := t])
    ensures false
    decreases |s|
  {
    var f := fat[c := t];
    if i :| 0 <= i < |s| - 1 && s[i] == c {
      assert PathFromTo(fat, s[..i + 1], t, c);
      Shortcut(fat, s[..i + 1], c, t);
    } else {
      var cycle := [c] + s;
      forall i | 0 <= i < |cycle| - 1 ensures f[cycle[i]] == cycle[i + 1] {
        if i > 0 { assert fat[s[i - 1]] == s[i - 1 + 1]; }
      }
      assert IsPath(f, cycle);
      NoCycle(f, cycle);
    }
  }

  lemma Suffices(fat: FatMap, c: nat, t: nat)
    requires WellFormed(fat) && InRange(fat, c) && MayBecome(fat, c, t)
    ensures WellFormed(fat[c := t])
  {
    var f := fat[c := t];
    forall d | 0 <= d < |f| && Link(f, d) && d != c ensures Link(fat, d) && f[d] == fat[d] {}
    var rank :| Ranked(fat, rank);
    assert PathFromTo(fat, [c], c, c);
    assert InRange(fat, t) ==> t != c;
    hide PathFromTo, LeadsTo;
    RaisedFalls(fat, rank, c, t);
    assert Ranked(f, Raised(fat, rank, c, t));
  }

  lemma RaisedFalls(fat: FatMap, rank: seq<nat>, c: nat, t: nat)
    requires Ranked(fat, rank) && InRange(fat, c) && (InRange(fat, t) ==> !LeadsTo(fat, t, c))
    ensures Ranked(fat[c := t], Raised(fat, rank, c, t))
  {
    var f, raised := fat[c := t], Raised(fat, rank, c, t);
    assert PathFromTo(fat, [c], c, c);
    forall d | 0 <= d < |f| && Link(f, d) ensures raised[f[d]] < raised[d] {
      if d != c {
        assert Link(fat, d);
        if LeadsTo(fat, f[d], c) { OneBefore(fat, d, c); }
      }
    }
  }

  lemma OneBefore(fat: FatMap, d: nat, c: nat)
    requires Link(fat, d) && LeadsTo(fat, fat[d], c)
    ensures LeadsTo(fat, d, c)
  {
    var s :| PathFromTo(fat, s, fat[d], c);
    assert PathFromTo(fat, [d] + s, d, c);
  }

  /** The rank with everything that leads to c lifted above t. */
  ghost function Raised(fat: FatMap, rank: seq<nat>, c: nat, t: nat): (r: seq<nat>)
    ensures |r| == |rank|
  {
    var lift := if t < |rank| then rank[t] + 1 else 0;
    seq(|rank|, d requires 0 <= d < |rank| => rank[d] + (if LeadsTo(fat, d, c) then lift else 0))
  }

  /** What a power cut finds: a well-formed FAT, or on FAT12 what a well-formed one reads
      between the two byte stores of one entry that straddles two sectors. */
  lemma CrashStates(fs: FatFs, i: nat)
    requires fs.Valid() && SafeSoFar(fs.geo, fs.fats) && i < |fs.disk.trace|
    ensures var f := FatOf(fs.geo, Blank(fs.geo, fs.disk.trace[i]));
      WellFormed(f) || exists fat :: WellFormed(fat) && Torn(fs.geo, fat, f)
  {
    hide WellFormed, Geo.Sound, FatOf, Blank, Torn;
    Bounds(fs.geo);
    var step := fs.log[fs.marks[i]];
    FatFrame(fs.geo, Blank(fs.geo, fs.disk.trace[i]), step);
    var f, fats := FatOf(fs.geo, step), fs.fats;
    assert Recorded(fs.geo, fats, f);
    if f !in fats {
      var k :| 0 <= k < |fats| - 1 && Torn(fs.geo, fats[k], f);
      assert fats[..|fats| - 1][k] == fats[k];
    } else if !AllWellFormed(fats) {
      var k :| 0 <= k < |fats| && f == fats[k];
      if k < |fats| - 1 { assert fats[..|fats| - 1][k] == fats[k]; } else { assert fats[..|fats| - 1][k - 1] == fats[k - 1]; }
    }
  }

  /** Such a torn FAT is well formed exactly if the torn value may stand in its entry. */
  lemma TornIsWellFormed(g: Geo, fat: FatMap, f: FatMap)
    requires WellFormed(fat) && Torn(g, fat, f)
    ensures exists c: nat, v: nat :: TornBy(g, fat, f, c, v) && (WellFormed(f) <==> MayBecome(fat, c, TornValue(c, fat[c], v)))
  {
    var c: nat, v: nat :| TornBy(g, fat, f, c, v);
    WellFormedUpdate(fat, c, TornValue(c, fat[c], v));
  }

  /** A power cut at any moment leaves a well-formed FAT on the medium, at most lost clusters
      and never a cross-link, on FAT16, on FAT32, and on FAT12 if no entry straddles two
      sectors, which is so for up to 2 * ss / 3 entries. */
  lemma CrashSafe(fs: FatFs, i: nat)
    requires fs.Valid() && SafeSoFar(fs.geo, fs.fats) && i < |fs.disk.trace|
    requires fs.geo.fsType == Fat12 ==> fs.geo.nFatent <= 2 * fs.geo.ss / 3
    ensures WellFormed(FatOf(fs.geo, Blank(fs.geo, fs.disk.trace[i])))
  {
    CrashStates(fs, i);
    assert ValidSectorSize(fs.geo.ss);
    hide WellFormed, Geo.Sound, FatOf, Blank, FatFs.Valid, SafeSoFar, HalfPut, Straddles;
    FirstStraddle(fs.geo);
  }

  /** On larger FAT12 volumes a power cut can leave a broken FAT: the end mark that
      create_chain puts on cluster 341 reads as a link to the free cluster 15 when only its
      first byte has reached the medium, and the link from cluster 682 to 0x302 as one to the
      free cluster 3842. */
  lemma TornWitness(g: Geo)
    requires g.fsType == Fat12 && g.ss == 512 && g.nFatent == 4000
    ensures var fat := seq(4000, _ => 0);
      WellFormed(fat) && Torn(g, fat, HalfPut(fat, 341, 0xFFFF_FFFF)) && !WellFormed(HalfPut(fat, 341, 0xFFFF_FFFF))
    ensures var fat := seq(4000, _ => 0)[682 := 0xFFF][0x302 := 0xFFF];
      WellFormed(fat) && Torn(g, fat, HalfPut(fat, 682, 0x302)) && !WellFormed(HalfPut(fat, 682, 0x302))
  {
    FirstStraddle(g);
    assert TornValue(341, 0, 0xFFFF_FFFF) == 15 && TornValue(682, 0xFFF, 0x302) == 3842;
    hide Straddles, TornValue, WellFormed, HalfPut, Torn;
    var fat: seq<nat> := seq(4000, _ => 0);
    NoLinks(fat);
    TornOne(g, fat, 341, 0xFFFF_FFFF, 15);
    var full := fat[682 := 0xFFF][0x302 := 0xFFF];
    NoLinks(full);
    TornOne(g, full, 682, 0x302, 3842);
  }

  lemma TornOne(g: Geo, fat: FatMap, c: nat, v: nat, t: nat)
    requires g.fsType == Fat12 && |fat| == g.nFatent && InRange(fat, c) && Straddles(g, c)
    requires TornValue(c, fat[c], v) == t && InRange(fat, t) && fat[t] == 0 && t != c
    ensures Torn(g, fat, HalfPut(fat, c, v)) && !WellFormed(HalfPut(fat, c, v))
  {
    hide TornValue, Straddles;
    assert TornBy(g, fat, HalfPut(fat, c, v), c, v);
    var f := HalfPut(fat, c, v);
    assert Link(f, c) && f[f[c]] == 0;
  }

  datatype AllocOp =
    | NewChain             // create_chain(0)
    | Extend(clst: nat)    // create_chain(clst)
    | Drop(head: nat)      // remove_chain(head, 0)
    | Truncate(last: nat)  // remove_chain(successor of last, last)

  /** The abstract allocator: the FAT and the owned chains. */
  datatype State = State(fat: FatMap, heads: set<nat>)

  /** What one call may do. ans is what create_chain returned; calls on clusters that the
      caller does not own, or that have no successor to cut off, are not made. */
  ghost predicate Step(eoc: nat, s: State, op: AllocOp, ans: nat, t: State)
    requires |s.fat| <= eoc
  {
    match op
    case NewChain =>
      if ans == 0 then NoneFree(s.fat) && t == s
      else InRange(s.fat, ans) && s.fat[ans] == 0 && t == State(Marked(s.fat, ans, eoc), s.heads + {ans})
    case Extend(clst) =>
      if !InRange(s.fat, clst) || s.fat[clst] == 0 then ans == 1 && t == s
      else if Followed(s.fat, clst) then ans == s.fat[clst] && t == s
      else if ans == 0 then NoneFree(s.fat) && t == s
      else InRange(s.fat, ans) && s.fat[ans] == 0 && t == State(Linked(s.fat, clst, ans, eoc), s.heads)
    case Drop(head) =>
      if head in s.heads then
        && t.heads == s.heads - {head}
        && forall c :: IsChain(s.fat, c) && c[0] == head ==> t.fat == Zeroed(s.fat, c)
      else t == s
    case Truncate(last) =>
      if Followed(s.fat, last) then
        && t.heads == s.heads
        && forall c :: IsChain(s.fat, c) && c[0] == s.fat[last] ==> t.fat == Zeroed(s.fat[last := eoc], c)
      else t == s
  }

  /** The state that every run of the allocator keeps. */
  ghost predicate Healthy(fs: FatFs, heads: set<nat>)
    reads fs`wflag, fs`winsect, fs`log, fs`fats, fs`marks, fs`bypass, fs`freeClst, fs.win, fs.disk
  {
    && fs.Valid() && WellFormed(fs.Fat()) && AllWellFormed(fs.fats)
    && Owned(fs.Fat(), heads) && Counted(fs.Fat(), fs.freeClst)
  }

  /** create_chain keeps the allocator healthy; a new chain joins the owned ones. */
  method RunGrow(fs: FatFs, clst: nat, owned: set<nat>) returns (res: FResult, heads: set<nat>, r: nat)
    requires Healthy(fs, owned)
    modifies fs`wflag, fs`winsect, fs`marks, fs`log, fs`fats, fs`lastClst, fs`freeClst, fs`fsiDirty, fs.win, fs.disk
    ensures fs.Grows()
    ensures res == Ok || (res == DiskErr && fs.disk.mayFail)
    ensures res == Ok ==> Healthy(fs, heads)
    ensures StaysSafe(fs, res == Ok)
    ensures res == Ok ==> (old(fs.freeClst) == 0xFFFF_FFFF <==> fs.freeClst == 0xFFFF_FFFF)
    ensures old(fs.Mirrored()) && !fs.disk.mayFail ==> fs.Mirrored()
    ensures EndMark(fs.geo) >= |old(fs.Fat())|
    ensures res == Ok ==>
      Step(EndMark(fs.geo), State(old(fs.Fat()), owned), if clst == 0 then NewChain else Extend(clst), r, State(fs.Fat(), heads))
  {
    hide Geo.Sound, FatFs.Ready, FatFs.Journaled, Traced, FatOf, FatFs.Img, FatFs.Mirrored, OnlyFat, EndMark, WellFormed, Owned, FirstFree, AllocSteps, RemoveSteps, Release, HasInvalid, NoneFree, CutBefore, MeetsInvalid, Bumped, FreeCount, FatFs.Valid;
    VolumeBounds(fs);
    LinkReadsBack(fs.geo, 0);
    res, heads, r := Ok, owned, 0;
    ghost var fat0, fats0, free0 := fs.Fat(), fs.fats, fs.freeClst;
    ghost var hint := fs.lastClst;
    r := CreateChain(fs, clst);
    if r == DISK_ERROR {
      AllocCutSafe(fs.geo, fats0, fat0, clst, SearchStart(clst, hint, fs.geo.nFatent), fs.fats);
      return DiskErr, heads, r;
    }
    if r >= 2 && (clst == 0 || !Followed(fat0, clst)) {
      GrowKeeps(fat0, owned, clst, SearchStart(clst, hint, fs.geo.nFatent), r, EndMark(fs.geo));
      StillCounted(fat0, fs.Fat(), free0);
      Joined(fats0, AllocSteps(fat0, clst, r, EndMark(fs.geo)));
      assert owned + {} == owned;
    }
    if r >= 2 && clst == 0 { heads := heads + {r}; }
    GrowIsStep(fat0, owned, clst, r, fs.Fat(), heads, SearchStart(clst, hint, fs.geo.nFatent), EndMark(fs.geo));
  }

  lemma StillCounted(fat: FatMap, after: FatMap, free: nat)
    requires 2 <= |fat| <= 0x0FFF_FFF7 && |after| == |fat|
    requires FreeCount(after) == FreeCount(fat) - 1 && Counted(fat, free)
    ensures Counted(after, if free <= |fat| - 2 then U32(free - 1) else free)
    ensures free == 0xFFFF_FFFF <==> (if free <= |fat| - 2 then U32(free - 1) else free) == 0xFFFF_FFFF
  {
  }

  lemma Joined(a: seq<FatMap>, b: seq<FatMap>)
    requires AllWellFormed(a) && AllWellFormed(b)
    ensures AllWellFormed(a + b)
  {
    hide WellFormed;
  }

  /** remove_chain keeps the allocator healthy; a chain removed whole is no longer owned. */
  method RunCut(fs: FatFs, clst: nat, pclst: nat, owned: set<nat>) returns (res: FResult, heads: set<nat>)
    requires if pclst == 0 then clst in owned else InRange(fs.Fat(), pclst) && InRange(fs.Fat(), clst) && fs.Fat()[pclst] == clst
    requires Healthy(fs, owned)
    modifies fs`wflag, fs`winsect, fs`marks, fs`log, fs`fats, fs`lastClst, fs`freeClst, fs`fsiDirty, fs.win, fs.disk
    ensures fs.Grows()
    ensures res == Ok || (res == DiskErr && fs.disk.mayFail)
    ensures res == Ok ==> Healthy(fs, heads)
    ensures StaysSafe(fs, res == Ok)
    ensures res == Ok ==> (old(fs.freeClst) == 0xFFFF_FFFF <==> fs.freeClst == 0xFFFF_FFFF)
    ensures old(fs.Mirrored()) && !fs.disk.mayFail ==> fs.Mirrored()
    ensures EndMark(fs.geo) >= |old(fs.Fat())|
    ensures res == Ok ==>
      Step(EndMark(fs.geo), State(old(fs.Fat()), owned), if pclst == 0 then Drop(clst) else Truncate(pclst), 0, State(fs.Fat(), heads))
  {
    hide Geo.Sound, FatFs.Ready, FatFs.Journaled, Traced, FatOf, FatFs.Img, FatFs.Mirrored, OnlyFat, EndMark, WellFormed, Owned, FirstFree, AllocSteps, RemoveSteps, Release, HasInvalid, NoneFree, CutBefore, MeetsInvalid, Bumped, FreeCount, FatFs.Valid;
    VolumeBounds(fs);
    LinkReadsBack(fs.geo, 0);
    res, heads := Ok, owned;
    ghost var fat0, fats0, free0 := fs.Fat(), fs.fats, fs.freeClst;
    CutKeeps(fat0, owned, clst, pclst, EndMark(fs.geo));
    HeadInRange(fat0, owned, clst, pclst);
    res := RemoveChain(fs, clst, pclst);
    if res != Ok { CutShortSafe(fs.geo, fats0, RemoveSteps(fat0, clst, pclst, EndMark(fs.geo)), fs.fats); }
    if res == Ok {
      var f := CutBefore(fat0, pclst, EndMark(fs.geo));
      BumpedCounts(f, clst, free0);
      SameFinal(fat0, f, clst, pclst, EndMark(fs.geo));
      Joined(fats0, RemoveSteps(fat0, clst, pclst, EndMark(fs.geo)));
      heads := owned - {clst};
      CutIsStep(fat0, owned, clst, pclst, fs.Fat(), EndMark(fs.geo));
    }
  }

  lemma GrowIsStep(fat: FatMap, heads: set<nat>, clst: nat, r: nat, fat': FatMap, heads': set<nat>, scl: nat, eoc: nat)
    requires WellFormed(fat) && |fat| <= eoc && heads' == (if r >= 2 && clst == 0 then heads + {r} else heads)
    requires r == 0 ==> NoneFree(fat) && fat' == fat && (clst == 0 || !Followed(fat, clst)) && (clst != 0 ==> InRange(fat, clst) && fat[clst] != 0)
    requires r == 1 ==> fat' == fat && (HasInvalid(fat) || (clst != 0 && (!InRange(fat, clst) || fat[clst] == 0)))
    requires r >= 2 && clst != 0 ==> InRange(fat, clst) && fat[clst] >= 2
    requires r >= 2 && clst != 0 && Followed(fat, clst) ==> r == fat[clst] && fat' == fat
    requires r >= 2 && (clst == 0 || !Followed(fat, clst)) ==>
      FirstFree(fat, scl, r) && fat' == Final(fat, AllocSteps(fat, clst, r, eoc))
    ensures Step(eoc, State(fat, heads), if clst == 0 then NewChain else Extend(clst), r, State(fat', heads'))
  {
  }

  lemma CutIsStep(fat: FatMap, heads: set<nat>, clst: nat, pclst: nat, fat': FatMap, eoc: nat)
    requires WellFormed(fat) && Owned(fat, heads) && eoc >= |fat|
    requires if pclst == 0 then clst in heads else InRange(fat, pclst) && InRange(fat, clst) && fat[pclst] == clst
    requires fat' == Final(fat, RemoveSteps(fat, clst, pclst, eoc))
    ensures Step(eoc, State(fat, heads), if pclst == 0 then Drop(clst) else Truncate(pclst), 0, State(fat', heads - {clst}))
  {
    forall s | IsChain(fat, s) && s[0] == clst
      ensures fat' == Zeroed(CutBefore(fat, pclst, eoc), s)
    {
      CutRest(fat, heads, clst, pclst, eoc, s);
    }
    hide WellFormed, RemoveSteps, Final, Zeroed;
    if pclst != 0 {
      assert Link(fat, pclst);
      assert clst !in heads;
      assert heads - {clst} == heads;
    }
  }

  lemma SameFinal(fat: FatMap, f: FatMap, clst: nat, pclst: nat, eoc: nat)
    requires f == CutBefore(fat, pclst, eoc)
    ensures Final(fat, RemoveSteps(fat, clst, pclst, eoc)) == Final(f, Release(f, clst))
  {
  }

  lemma HeadInRange(fat: FatMap, heads: set<nat>, clst: nat, pclst: nat)
    requires Owned(fat, heads) && (pclst == 0 ==> clst in heads)
    ensures pclst == 0 ==> InRange(fat, clst)
  {
  }

  /** One operation. */
  method RunOne(fs: FatFs, op: AllocOp, owned: set<nat>) returns (res: FResult, heads: set<nat>, ans: nat)
    requires Healthy(fs, owned)
    modifies fs`wflag, fs`winsect, fs`marks, fs`log, fs`fats, fs`lastClst, fs`freeClst, fs`fsiDirty, fs.win, fs.disk
    ensures fs.Grows()
    ensures res == Ok || (res == DiskErr && fs.disk.mayFail)
    ensures res == Ok ==> Healthy(fs, heads)
    ensures StaysSafe(fs, res == Ok)
    ensures res == Ok ==> (old(fs.freeClst) == 0xFFFF_FFFF <==> fs.freeClst == 0xFFFF_FFFF)
    ensures old(fs.Mirrored()) && !fs.disk.mayFail ==> fs.Mirrored()
    ensures EndMark(fs.geo) >= |old(fs.Fat())|
    ensures res == Ok ==> Step(EndMark(fs.geo), State(old(fs.Fat()), owned), op, ans, State(fs.Fat(), heads))
  {
    hide Geo.Sound, FatFs.Ready, FatFs.Journaled, Traced, FatOf, FatFs.Img, FatFs.Mirrored, WellFormed, Owned, FreeCount, AllWellFormed, EndMark;
    VolumeBounds(fs);
    LinkReadsBack(fs.geo, 0);
    res, heads, ans := Ok, owned, 0;
    match op {
      case NewChain => res, heads, ans := RunGrow(fs, 0, owned);
      case Extend(clst) => if clst != 0 { res, heads, ans := RunGrow(fs, clst, owned); } else { ans := 1; }
      case Drop(head) => if head in owned { res, heads := RunCut(fs, head, 0, owned); }
      case Truncate(last) =>
        if last != 0 {
          var next := GetFat(fs, last);
          if next == DISK_ERROR { return DiskErr, heads, ans; }
          if 2 <= next < fs.geo.nFatent { res, heads := RunCut(fs, next, last, owned); }
        }
    }
  }

  /** Any run of allocations and removals on chains the caller owns is a run of the abstract
      allocator; every FAT along the way is well formed, the owned chains stay apart, and the
      free count stays right or unknown. */
  method RunAllocator(fs: FatFs, ops: seq<AllocOp>, owned: set<nat>)
    returns (res: FResult, heads: set<nat>, answers: seq<nat>, ghost states: seq<State>)
    requires Healthy(fs, owned)
    modifies fs`wflag, fs`winsect, fs`marks, fs`log, fs`fats, fs`lastClst, fs`freeClst, fs`fsiDirty, fs.win, fs.disk
    ensures fs.Grows()
    ensures res == Ok || (res == DiskErr && fs.disk.mayFail)
    ensures res == Ok ==> Healthy(fs, heads)
    ensures StaysSafe(fs, res == Ok)
    ensures res == Ok ==> (old(fs.freeClst) == 0xFFFF_FFFF <==> fs.freeClst == 0xFFFF_FFFF)
    ensures old(fs.Mirrored()) && !fs.disk.mayFail ==> fs.Mirrored()
    ensures res == Ok ==>
      && Run(EndMark(fs.geo), ops, answers, states)
      && states[0] == State(old(fs.Fat()), owned) && states[|ops|] == State(fs.Fat(), heads)
  {
    hide Healthy, Geo.Sound, FatFs.Ready, FatFs.Journaled, Traced, FatOf, FatFs.Img, FatFs.Mirrored, WellFormed, Owned, FreeCount, AllWellFormed, Step, EndMark;
    HealthyIsSafe(fs, owned);
    res, heads, answers, states := Ok, owned, [], [State(fs.Fat(), owned)];
    for i := 0 to |ops|
      invariant res == Ok && Healthy(fs, heads) && fs.Grows() && AllWellFormed(fs.fats)
      invariant old(fs.freeClst) == 0xFFFF_FFFF <==> fs.freeClst == 0xFFFF_FFFF
      invariant old(fs.Mirrored()) && !fs.disk.mayFail ==> fs.Mirrored()
      invariant Run(EndMark(fs.geo), ops[..i], answers, states)
      invariant states[0] == State(old(fs.Fat()), owned) && states[i] == State(fs.Fat(), heads)
    {
      var ans;
      res, heads, ans := RunOne(fs, ops[i], heads);
      if res != Ok { return; }
      assert ops[..i + 1] == ops[..i] + [ops[i]];
      answers, states := answers + [ans], states + [State(fs.Fat(), heads)];
    }
    assert ops[..|ops|] == ops;
  }

  lemma HealthyIsSafe(fs: FatFs, heads: set<nat>)
    requires Healthy(fs, heads)
    ensures AllWellFormed(fs.fats)
  {
    hide WellFormed;
  }

  ghost predicate Run(eoc: nat, ops: seq<AllocOp>, answers: seq<nat>, states: seq<State>)
  {
    && |answers| == |ops| && |states| == |ops| + 1
    && forall i :: 0 <= i < |ops| ==> |states[i].fat| <= eoc && Step(eoc, states[i], ops[i], answers[i], states[i + 1])
  }
}
