/** `f_lseek` with a link map: making the map, seeking with it, and why both ways of
    seeking end in the same place. */
module FastSeek {
  import opened Allocator
  import opened Arith
  import opened Bytes
  import opened Chains
  import opened FatEntries
  import opened FatTable
  import opened FileBytes
  import opened FileLayout
  import opened FileModel
  import opened Files
  import opened Geometry
  import opened LinkMap
  import opened Seek
  import opened Window

  const CREATE_LINKMAP: nat := 0xFFFF_FFFF

  // ----- making the map

  /** The first k clusters are consecutive and the run ends there. */
  ghost predicate RunOf(chain: seq<nat>, k: nat)
  {
    && 1 <= k <= |chain|
    && (forall j :: 0 < j < k ==> chain[j] == chain[0] + j)
    && (k < |chain| ==> chain[k] != chain[0] + k)
  }

  lemma {:induction false} RunIs(chain: seq<nat>, k: nat)
    requires RunOf(chain, k)
    ensures FirstRun(chain) == k
    decreases |chain|
  {
    if k > 1 {
      var rest := chain[1..];
      assert chain[1] == chain[0] + 1;
      forall j | 0 < j < k - 1 ensures rest[j] == rest[0] + j { assert chain[j + 1] == chain[0] + (j + 1); }
      RunIs(rest, k - 1);
    }
  }

  /** The end mark of the chain happens to be the number after its last cluster. */
  ghost predicate MarkFollows(fat: FatMap, chain: seq<nat>)
  {
    chain != [] && chain[|chain| - 1] < |fat| && fat[chain[|chain| - 1]] == chain[|chain| - 1] + 1
  }

  /** That cannot happen on a chain that ends in the engine's own end mark; only a foreign
      mark, a number just beyond the volume, can follow the last cluster. */
  lemma OwnMarksAreSafe(g: Geo, fat: FatMap, chain: seq<nat>)
    requires g.Sound() && |fat| == g.nFatent && IsChain(fat, chain) && fat[chain[|chain| - 1]] == EndMark(g)
    ensures !MarkFollows(fat, chain)
  {
    assert InRange(fat, chain[|chain| - 1]);
    assert g.nFatent <= g.MaxClusters() + 2 < EndMark(g);
  }

  /** A volume of five entries whose last cluster carries the foreign mark 5. */
  lemma ForeignMark()
    ensures var fat, chain := [0, 0, 0, 0, 5], [4];
      WellFormed(fat) && IsChain(fat, chain) && MarkFollows(fat, chain)
  {
    NoLinks([0, 0, 0, 0, 5]);
    hide WellFormed;
  }

  /** get_fat at position i of the chain, or past its end. */
  method FollowLink(fp: Fil, clst: nat, ghost i: nat) returns (val: nat)
    requires fp.Sane() && i <= |fp.chain|
    requires if i < |fp.chain| then clst == fp.chain[i] else clst >= fp.fs.geo.nFatent
    modifies fp.fs`wflag, fp.fs`winsect, fp.fs`marks, fp.fs.win, fp.fs.disk
    ensures fp.Sane() && fp.fs.Img() == old(fp.fs.Img()) && fp.Data() == old(fp.Data()) && fp.fs.Grows()
    ensures val == DISK_ERROR ==> fp.fs.disk.mayFail
    ensures val != DISK_ERROR ==> val == LinkIn(fp.fs.Fat(), fp.chain, i)
    ensures LinkFacts(fp.fs.Fat(), fp.chain, i)
  {
    hide FatFs.Ready, FatFs.Journaled, Traced, FatOf, Good, Content, FatFs.Img;
    ghost var v, f := fp.V(), fp.F();
    GeoFacts(v, f);
    if i < |fp.chain| { NextCluster(v, f, i); }
    val := GetFat(fp.fs, clst);
    VolMoved(v, f, fp.fs.winsect);
  }

  /** What get_fat gives for cluster i of a chain; 1 past the end. */
  function LinkIn(fat: FatMap, chain: seq<nat>, i: nat): nat
  {
    if i < |chain| && chain[i] < |fat| then fat[chain[i]] else 1
  }

  ghost predicate LinkFacts(fat: FatMap, chain: seq<nat>, i: nat)
  {
    && (i < |chain| ==> 2 <= chain[i] < |fat|)
    && (i + 1 < |chain| ==> LinkIn(fat, chain, i) == chain[i + 1] >= 2)
    && (i + 1 == |chain| ==> LinkIn(fat, chain, i) >= |fat|)
  }

  /** Clusters from n on: the first k are consecutive, and cl would be the next. */
  ghost predicate Running(fat: FatMap, chain: seq<nat>, n: nat, k: nat, cl: nat)
  {
    && n < |chain| && n + k <= |chain| && cl == chain[n] + k
    && (forall j :: n < j < n + k ==> chain[j] == chain[n] + (j - n))
    && (if n + k < |chain| then cl == chain[n + k] else cl >= |fat| && MarkFollows(fat, chain))
  }

  lemma RunStarts(fat: FatMap, chain: seq<nat>, n: nat)
    requires n < |chain|
    ensures Running(fat, chain, n, 0, chain[n])
  {
  }

  lemma RunningIs(fat: FatMap, chain: seq<nat>, n: nat, k: nat, cl: nat)
    requires Running(fat, chain, n, k, cl)
    ensures n + k <= |chain| && n < |chain| && cl == chain[n] + k
    ensures if n + k < |chain| then cl == chain[n + k] else cl >= |fat| && MarkFollows(fat, chain)
  {
  }

  lemma SaneFat(fp: Fil)
    requires fp.Sane()
    ensures fp.fs.Fat() == FatOf(fp.fs.geo, fp.fs.Img()) && |fp.fs.Fat()| == fp.fs.geo.nFatent
  {
    hide FatFs.Ready, FatFs.Journaled, Traced, Good, FatFs.Img;
    GeoFacts(fp.V(), fp.F());
  }

  lemma RunEnds(fat: FatMap, chain: seq<nat>, n: nat, k: nat, cl: nat)
    requires n + k < |chain| && Running(fat, chain, n, k, chain[n] + k) && LinkFacts(fat, chain, n + k)
    requires cl == LinkIn(fat, chain, n + k) && cl > 1
    ensures cl == chain[n + k] + 1 ==> Running(fat, chain, n, k + 1, cl)
    ensures cl != chain[n + k] + 1 ==>
      && RunOf(chain[n..], k + 1)
      && (if n + k + 1 < |chain| then cl == chain[n + k + 1] else cl >= |fat| && !MarkFollows(fat, chain))
  {
    var rest := chain[n..];
    forall j | 0 < j < k + 1 ensures rest[j] == rest[0] + j { assert chain[n + j] == chain[n] + j; }
    if n + k + 1 < |chain| { assert rest[k + 1] == chain[n + k + 1]; }
  }

  /** The inner loop of the map construction: one fragment, starting at cluster n of the
      file. cl is the cluster after it, or the end mark. */
  method NextFragment(fp: Fil, top: nat, ghost n: nat) returns (res: FResult, ncl: nat, cl: nat)
    requires fp.Sane() && n < |fp.chain| && top == fp.chain[n]
    modifies fp.fs`wflag, fp.fs`winsect, fp.fs`marks, fp.fs.win, fp.fs.disk
    ensures fp.Sane() && fp.fs.Img() == old(fp.fs.Img()) && fp.Data() == old(fp.Data()) && fp.fs.Grows()
    ensures res == Ok || (res == DiskErr && fp.fs.disk.mayFail) || (res == IntErr && MarkFollows(fp.fs.Fat(), fp.chain))
    ensures res == Ok ==> n + ncl <= |fp.chain| && RunOf(fp.chain[n..], ncl)
    ensures res == Ok ==>
      if n + ncl < |fp.chain| then cl == fp.chain[n + ncl] else cl >= fp.fs.geo.nFatent && !MarkFollows(fp.fs.Fat(), fp.chain)
  {
    hide Fil.Sane, FatFs.Img, FatOf, RunOf, MarkFollows, Running, Fil.Data;
    ghost var img, fat := fp.fs.Img(), fp.fs.Fat();
    SaneFat(fp);
    res, ncl, cl := Ok, 0, top;
    RunStarts(fat, fp.chain, n);
    while true
      invariant fp.Sane() && fp.fs.Img() == img && fp.Data() == old(fp.Data()) && fp.fs.Grows()
      invariant res == Ok && Running(fat, fp.chain, n, ncl, cl)
      decreases |fp.chain| + 1 - ncl
    {
      var pcl := cl;
      RunningIs(fat, fp.chain, n, ncl, cl);
      cl := FollowLink(fp, cl, n + ncl);
      ncl := ncl + 1;
      if cl <= 1 { return IntErr, ncl, cl; }
      if cl == DISK_ERROR { return DiskErr, ncl, cl; }
      RunEnds(fat, fp.chain, n, ncl - 1, cl);
      if cl != pcl + 1 { break; }
    }
  }

  /** Items stored so far for the first n clusters; once they stop fitting only the count
      goes on. */
  ghost predicate Stored(t: seq<nat>, tlen: nat, chain: seq<nat>, n: nat, ulen: nat, p: nat)
  {
    && n <= |chain| && ulen >= 2
    && 2 * Fragments(chain) + 2 == ulen + 2 * Fragments(chain[n..])
    && (ulen <= tlen ==> p == ulen - 1 < |t| && Encode(chain) == t[1..p] + Encode(chain[n..]))
  }

  lemma StoreItems(t: seq<nat>, p: nat, a: nat, b: nat)
    requires 1 <= p && p + 1 < |t|
    ensures t[p := a][p + 1 := b][1..p + 2] == t[1..p] + [a, b]
  {
  }

  /** One more fragment. */
  lemma StoreOne(t: seq<nat>, t': seq<nat>, tlen: nat, chain: seq<nat>, n: nat, ulen: nat, p: nat, p': nat, k: nat)
    requires Stored(t, tlen, chain, n, ulen, p) && n < |chain| && RunOf(chain[n..], k)
    requires tlen <= |t| == |t'|
    requires ulen + 2 <= tlen ==> t' == t[p := k][p + 1 := chain[n]] && p' == p + 2
    ensures n + k <= |chain|
    ensures Stored(t', tlen, chain, n + k, ulen + 2, p')
  {
    var rest := chain[n..];
    RunIs(rest, k);
    assert rest[k..] == chain[n + k..];
    hide RunOf;
    if ulen + 2 <= tlen {
      StoreItems(t, p, k, chain[n]);
      var e := Encode(chain[n + k..]);
      assert Encode(rest) == [k, chain[n]] + e;
      hide Encode;
      assert t[1..p] + ([k, chain[n]] + e) == (t[1..p] + [k, chain[n]]) + e;
    }
  }

  /** The items of a complete table: its size, the pairs of the fragments, and a 0. */
  ghost predicate Written(t: seq<nat>, chain: seq<nat>)
  {
    |t| > 0 && 2 <= t[0] <= |t| && t[1..t[0] - 1] == Encode(chain) && t[t[0] - 1] == 0
  }

  lemma StoredText(t: seq<nat>, t': seq<nat>, tlen: nat, chain: seq<nat>, ulen: nat, p: nat)
    requires Stored(t, tlen, chain, |chain|, ulen, p) && ulen <= tlen <= |t| && t' == t[0 := ulen][p := 0]
    ensures Written(t', chain)
  {
    assert chain[|chain|..] == [];
    assert Encode(chain) == t[1..p] by { assert t[1..p] + [] == t[1..p]; }
    hide Encode;
    assert t'[1..p] == t[1..p];
  }

  lemma StoredAll(t: seq<nat>, t': seq<nat>, tlen: nat, chain: seq<nat>, ulen: nat, p: nat)
    requires Stored(t, tlen, chain, |chain|, ulen, p) && tlen <= |t|
    requires ulen <= tlen ==> t' == t[0 := ulen][p := 0]
    ensures ulen == 2 * Fragments(chain) + 2
    ensures ulen <= tlen ==> MapExact(t', chain) && t'[0] == ulen
  {
    assert chain[|chain|..] == [];
    if ulen <= tlen {
      EncodeLength(chain);
      assert t'[1..p] == t[1..p] == Encode(chain);
      DecodeEncode(chain, t', 1);
    }
  }

  /** Only the items before the given size, and item 0, may have changed. */
  ghost predicate KeptBeyond(t: seq<nat>, t': seq<nat>, tlen: nat)
  {
    |t| == |t'| && forall j :: 0 < j < |t| && tlen <= j ==> t'[j] == t[j]
  }

  /** `f_lseek(fp, CREATE_LINKMAP)`. The table given in cltbl starts with its own size; the
      size it needs is stored there. */
  method CreateLinkMap(fp: Fil) returns (res: FResult)
    requires fp.Sane() && fp.cltbl != null && fp.cltbl.Length >= 1 && fp.cltbl[0] <= fp.cltbl.Length
    modifies fp.cltbl, fp.fs`wflag, fp.fs`winsect, fp.fs`marks, fp.fs.win, fp.fs.disk
    ensures fp.Sane() && fp.fs.Img() == old(fp.fs.Img()) && fp.Data() == old(fp.Data()) && fp.fs.Grows()
    ensures KeptBeyond(old(fp.cltbl[..]), fp.cltbl[..], old(fp.cltbl[0]))
    ensures res == DiskErr ==> fp.fs.disk.mayFail
    ensures res == IntErr ==> MarkFollows(fp.fs.Fat(), fp.chain)
    ensures res == Ok || res == NotEnoughCore ==>
      && !MarkFollows(fp.fs.Fat(), fp.chain)
      && fp.cltbl[0] == 2 * Fragments(fp.chain) + 2
      && (res == Ok <==> fp.cltbl[0] <= old(fp.cltbl[0]))
    ensures res == Ok ==> MapExact(fp.cltbl[..], fp.chain) && fp.FullyMapped() && fp.Open()
    ensures res == Ok ==> Written(fp.cltbl[..], fp.chain)
    ensures res == Ok || res == NotEnoughCore || res == DiskErr || res == IntErr
  {
    hide Fil.Sane, FatFs.Img, FatOf, Fil.Data, MapExact, Stored, Written, KeptBeyond;
    ghost var t0 := fp.cltbl[..];
    var tlen, p, ulen := fp.cltbl[0], 1, 2;
    res := Ok;
    var cl := fp.sclust;
    NothingStored(t0, tlen, fp.chain);
    SaneStart(fp);
    if cl != 0 {
      res, ulen, p := StoreFragments(fp, tlen);
      if res != Ok { return; }
    }
    ghost var was := fp.cltbl[..];
    StoredIs(was, tlen, fp.chain, |fp.chain|, ulen, p);
    PutItem(fp, 0, ulen);
    if ulen <= tlen {
      PutItem(fp, p, 0);
    } else {
      res := NotEnoughCore;
    }
    StoredAll(was, fp.cltbl[..], tlen, fp.chain, ulen, p);
    if ulen <= tlen { StoredText(was, fp.cltbl[..], tlen, fp.chain, ulen, p); }
    KeptPair(t0, was, fp.cltbl[..], tlen);
    if ulen <= tlen { NowMapped(fp); }
  }

  lemma NowMapped(fp: Fil)
    requires fp.Sane() && fp.cltbl != null && MapExact(fp.cltbl[..], fp.chain)
    ensures fp.FullyMapped() && fp.Open()
  {
    hide FatFs.Ready, FatFs.Journaled, Traced, Good, FatFs.Img, FatOf, Terminated, Decode;
  }

  lemma NothingStored(t: seq<nat>, tlen: nat, chain: seq<nat>)
    requires tlen <= |t| && 1 <= |t|
    ensures Stored(t, tlen, chain, 0, 2, 1) && KeptBeyond(t, t, tlen)
    ensures chain == [] ==> Stored(t, tlen, chain, |chain|, 2, 1)
  {
    assert chain[0..] == chain;
  }

  lemma StoredIs(t: seq<nat>, tlen: nat, chain: seq<nat>, n: nat, ulen: nat, p: nat)
    requires Stored(t, tlen, chain, n, ulen, p)
    ensures ulen >= 2 && n <= |chain| && (ulen <= tlen ==> p == ulen - 1 < |t|)
  {
  }

  lemma SaneStart(fp: Fil)
    requires fp.Sane()
    ensures fp.sclust == 0 <==> fp.chain == []
    ensures fp.chain != [] ==> fp.sclust == fp.chain[0]
  {
    hide FatFs.Ready, FatFs.Journaled, Traced, Good, FatFs.Img;
    if fp.chain != [] { NextCluster(fp.V(), fp.F(), 0); }
  }

  lemma SaneRange(fp: Fil, n: nat)
    requires fp.Sane() && n < |fp.chain|
    ensures fp.fs.geo.ValidCluster(fp.chain[n])
  {
    hide FatFs.Ready, FatFs.Journaled, Traced, Good, FatFs.Img, FatOf;
    NextCluster(fp.V(), fp.F(), n);
  }

  /** A store into the table touches neither the file nor the volume. */
  method PutItem(fp: Fil, p: nat, x: nat)
    requires fp.Sane() && fp.cltbl != null && p < fp.cltbl.Length
    modifies fp.cltbl
    ensures fp.cltbl[..] == old(fp.cltbl[..])[p := x]
    ensures fp.Sane() && fp.fs.Img() == old(fp.fs.Img()) && fp.Data() == old(fp.Data()) && fp.fs.Grows()
  {
    hide FatFs.Ready, FatFs.Journaled, Traced, Good, FatFs.Img, FatOf, Content;
    fp.cltbl[p] := x;
  }

  lemma KeptPair(t: seq<nat>, u: seq<nat>, w: seq<nat>, tlen: nat)
    requires KeptBeyond(t, u, tlen) && |w| == |u|
    requires forall j :: 0 < j < |u| && tlen <= j ==> w[j] == u[j]
    ensures KeptBeyond(t, w, tlen)
  {
  }

  lemma RunLength(chain: seq<nat>, n: nat, k: nat)
    requires n < |chain| && RunOf(chain[n..], k)
    ensures 1 <= k && n + k <= |chain|
  {
  }

  /** The outer loop: a pair per fragment, stored as long as the table has room. */
  method StoreFragments(fp: Fil, tlen: nat) returns (res: FResult, ulen: nat, p: nat)
    requires fp.Sane() && fp.chain != [] && fp.cltbl != null && 1 <= fp.cltbl.Length && tlen <= fp.cltbl.Length
    modifies fp.cltbl, fp.fs`wflag, fp.fs`winsect, fp.fs`marks, fp.fs.win, fp.fs.disk
    ensures fp.Sane() && fp.fs.Img() == old(fp.fs.Img()) && fp.Data() == old(fp.Data()) && fp.fs.Grows()
    ensures KeptBeyond(old(fp.cltbl[..]), fp.cltbl[..], tlen)
    ensures res == Ok || (res == DiskErr && fp.fs.disk.mayFail) || (res == IntErr && MarkFollows(fp.fs.Fat(), fp.chain))
    ensures res == Ok ==> Stored(fp.cltbl[..], tlen, fp.chain, |fp.chain|, ulen, p) && !MarkFollows(fp.fs.Fat(), fp.chain)
  {
    hide Fil.Sane, FatFs.Img, FatOf, RunOf, MarkFollows, Fil.Data, MapExact, Stored, KeptBeyond;
    ghost var t0, img := fp.cltbl[..], fp.fs.Img();
    NothingStored(t0, tlen, fp.chain);
    SaneStart(fp);
    SaneFat(fp);
    ghost var n := 0;
    var cl := fp.sclust;
    res, ulen, p := Ok, 2, 1;
    while true
      invariant fp.Sane() && fp.fs.Img() == img && fp.Data() == old(fp.Data()) && fp.fs.Grows() && res == Ok
      invariant n < |fp.chain| && cl == fp.chain[n]
      invariant Stored(fp.cltbl[..], tlen, fp.chain, n, ulen, p) && KeptBeyond(t0, fp.cltbl[..], tlen)
      decreases |fp.chain| - n
    {
      ghost var was, q, at := fp.cltbl[..], ulen, p;
      StoredIs(was, tlen, fp.chain, n, ulen, p);
      SaneRange(fp, n);
      var tcl := cl;
      ulen := ulen + 2;
      var ncl;
      res, ncl, cl := NextFragment(fp, tcl, n);
      if res != Ok { return; }
      if ulen <= tlen {
        PutItem(fp, p, ncl);
        PutItem(fp, p + 1, tcl);
        p := p + 2;
      }
      StoreOne(was, fp.cltbl[..], tlen, fp.chain, n, q, at, p, ncl);
      KeptPair(t0, was, fp.cltbl[..], tlen);
      RunLength(fp.chain, n, ncl);
      n := n + ncl;
      if n < |fp.chain| { SaneRange(fp, n); }
      if cl >= fp.fs.geo.nFatent { break; }
    }
  }

  // ----- seeking

  /** The mapped cluster and the sector of position p, which lies after byte p - 1. */
  lemma MapPlace(v: Vol, f: File, p: nat)
    requires Good(v, f) && 0 < p <= f.objsize
    ensures v.g.ss > 0 && v.g.csize > 0 && v.g.nFatent >= 2
    ensures ClusterIndex(v.g, Sec(v.g, p - 1)) < |f.chain|
    ensures var c := f.chain[ClusterIndex(v.g, Sec(v.g, p - 1))];
      Clust2Sect(v.g, c) > 0 && Reaches(v.g, f.chain, c, p, Clust2Sect(v.g, c) + BitAnd((p - 1) / v.g.ss, v.g.csize - 1))
  {
    Arithmetic();
    hide Times, Quotient, Remainder;
    hide Good, Clust2Sect;
    GeoFacts(v, f);
    SizeFits(v, f);
    ByteCluster(v.g, f.chain, p - 1);
    var k := Sec(v.g, p - 1);
    TargetCluster(v, f, ClusterIndex(v.g, k));
    MaskIsMod((p - 1) / v.g.ss, v.g.csize);
    if Off(v.g, p) != 0 { SameSectorBefore(v.g, p); }
    hide BitAnd, IsPow2;
  }

  lemma ByteCluster(g: Geo, chain: seq<nat>, b: nat)
    requires g.ss > 0 && g.csize > 0 && b < SectorCount(g, chain) * g.ss
    ensures Sec(g, b) < SectorCount(g, chain) && ClusterIndex(g, Sec(g, b)) < |chain|
  {
    Arithmetic();
    hide Times, Quotient, Remainder;
    DivBelow(b, SectorCount(g, chain), g.ss);
    DivBelow(Sec(g, b), |chain|, g.csize);
  }

  lemma SizeFits(v: Vol, f: File)
    requires Good(v, f)
    ensures f.objsize <= SectorCount(v.g, f.chain) * v.g.ss
  {
    Arithmetic();
    hide Times, Quotient, Remainder;
  }

  lemma SameSectorBefore(g: Geo, p: nat)
    requires g.ss > 0 && Off(g, p) != 0 && p > 0
    ensures Sec(g, p - 1) == Sec(g, p)
  {
    PosSplit(g, p);
    PosOf(g, Sec(g, p), Off(g, p) - 1);
  }

  /** `f_lseek` with a link map: no FAT access, and never past the end of the file. */
  method MapSeek(fp: Fil, target: nat) returns (res: FResult)
    requires fp.Open() && Placed(fp.fs.geo, fp.F()) && fp.cltbl != null
    modifies fp`objsize, fp`modified, fp`clust, fp`dirty, fp`sect, fp`bix, fp`fptr, fp.buf, fp.fs`marks, fp.fs`bypass, fp.fs.disk
    ensures fp.Intact() && fp.fs.Grows()
    ensures res == Ok || (res == DiskErr && fp.fs.disk.mayFail) || (res == IntErr && !fp.FullyMapped())
    ensures res == Ok ==> fp.Open() && Placed(fp.fs.geo, fp.F()) && fp.fs.Fat() == old(fp.fs.Fat())
    ensures res == Ok ==> fp.Data() == old(fp.Data())
    ensures res == Ok ==> fp.fptr == if target <= |old(fp.Data())| then target else |old(fp.Data())|
    ensures res == Ok ==> Others(old(fp.V()), fp.chain, fp.V(), fp.chain)
  {
    hide FatFs.Ready, FatFs.Journaled, Traced, FatOf, Good, Content, Sec, Off, FatFs.Img, MapPrefix, SectorOf, SectorCount, ClusterIndex, Others, Reaches, Fil.FullyMapped, Clust2Sect, BitAnd, Holds;
    ghost var whole := fp.Data();
    BufFacts(fp.V(), fp.F());
    GeoFacts(fp.V(), fp.F());
    FirstOffset(fp.fs.geo);
    SetPointer(fp.V(), fp.F(), 0);
    ReachesStart(fp.V(), fp.F());
    var ofs := target;
    if ofs > fp.objsize { ofs := fp.objsize; }
    fp.fptr := 0;
    var dsc := 0;
    res := Ok;
    if ofs > 0 {
      res, dsc := MapLocate(fp, ofs);
      if res != Ok { return; }
    }
    ghost var v1 := fp.V();
    OthersSame(v1, fp.chain, v1);
    res := FinishSeek(fp, ofs, dsc);
    if res == Ok { SamePrefix(whole, fp.Data()); }
  }

  /** The cluster and sector of a position inside the file, from the map. */
  method MapLocate(fp: Fil, ofs: nat) returns (res: FResult, dsc: nat)
    requires fp.Open() && fp.cltbl != null && 0 < ofs <= fp.objsize
    modifies fp`clust
    ensures fp.Open() && fp.V() == old(fp.V()) && fp.Data() == old(fp.Data())
    ensures res == Ok || (res == IntErr && !fp.FullyMapped())
    ensures res == Ok ==> Reaches(fp.fs.geo, fp.chain, fp.clust, ofs, dsc)
  {
    hide FatFs.Ready, FatFs.Journaled, Traced, FatOf, Good, Content, Sec, Off, FatFs.Img, MapPrefix, SectorOf, SectorCount, ClusterIndex, Reaches, Fil.FullyMapped, Clust2Sect, BitAnd;
    GeoFacts(fp.V(), fp.F());
    MapPlace(fp.V(), fp.F(), ofs);
    var clst := MappedCluster(fp, ofs - 1);
    Reclust(fp.V(), fp.F(), clst);
    fp.clust := clst;
    dsc := Clust2Sect(fp.fs.geo, clst);
    if dsc == 0 { return IntErr, 0; }
    if clst == 0 { NoSector(fp.fs.geo); }
    dsc := dsc + BitAnd((ofs - 1) / fp.fs.geo.ss, fp.fs.geo.csize - 1);
    res := Ok;
  }

  lemma NoSector(g: Geo)
    requires g.nFatent >= 2 && g.nFatent < 0x0FFF_FFF8
    ensures Clust2Sect(g, 0) == 0
  {
  }

  /** `f_lseek` */
  method FLseek(fp: Fil, ofs: nat) returns (res: FResult)
    requires ofs < TWO32 && fp.Intact()
    requires fp.err == Ok ==> fp.Sane() && Placed(fp.fs.geo, fp.F())
    requires fp.err == Ok ==>
      if fp.cltbl != null && ofs == CREATE_LINKMAP then fp.cltbl.Length >= 1 && fp.cltbl[0] <= fp.cltbl.Length
      else fp.Mapped()
    modifies fp`err, fp`objsize, fp`modified, fp`dirty, fp`sect, fp`bix, fp`fptr, fp.buf, fp`clust, fp`chain, fp`sclust
    modifies if fp.cltbl != null then {fp.cltbl} else {}
    modifies fp.fs`wflag, fp.fs`winsect, fp.fs`marks, fp.fs`bypass, fp.fs`log, fp.fs`fats, fp.fs`lastClst, fp.fs`freeClst, fp.fs`fsiDirty, fp.fs.win, fp.fs.disk
    ensures StaysSafe(fp.fs, res != DiskErr)
    ensures fp.Intact() && fp.fs.Grows()
    ensures old(fp.err) != Ok ==> res == fp.err == old(fp.err)
    ensures old(fp.err) == Ok ==> fp.err == if res == NotEnoughCore then Ok else res
    ensures fp.err == Ok ==> fp.Sane() && Placed(fp.fs.geo, fp.F())
    ensures res == Ok ==> fp.Valid()
    ensures old(fp.err) == Ok && res == DiskErr ==> fp.fs.disk.mayFail
    ensures old(fp.err) == Ok && fp.cltbl == null ==> res == Ok || res == DiskErr
    ensures res == Ok && fp.cltbl == null ==> Others(old(fp.V()), old(fp.chain), fp.V(), fp.chain)
    ensures res == Ok && fp.cltbl == null && ofs <= |old(fp.Data())| ==> fp.fptr == ofs && fp.Data() == old(fp.Data())
    ensures res == Ok && fp.cltbl == null && ofs > |old(fp.Data())| && !fp.canWrite ==>
      fp.fptr == |old(fp.Data())| && fp.Data() == old(fp.Data())
    ensures res == Ok && fp.cltbl == null && ofs > |old(fp.Data())| && fp.canWrite ==>
      && (fp.fptr == ofs || StoppedShort(fp, ofs))
      && |old(fp.Data())| <= fp.fptr == |fp.Data()| && old(fp.Data()) <= fp.Data()
    ensures res == Ok && fp.cltbl == null ==> fp.modified == (old(fp.modified) || |fp.Data()| > |old(fp.Data())|)
    ensures old(fp.err) == Ok && fp.cltbl != null && ofs != CREATE_LINKMAP ==>
      res == Ok || res == DiskErr || (res == IntErr && !fp.FullyMapped())
    ensures res == Ok && fp.cltbl != null && ofs != CREATE_LINKMAP ==>
      && fp.Data() == old(fp.Data())
      && fp.fptr == if ofs <= |old(fp.Data())| then ofs else |old(fp.Data())|
    ensures old(fp.err) == Ok && fp.cltbl != null && ofs == CREATE_LINKMAP ==>
      && fp.Data() == old(fp.Data()) && fp.fptr == old(fp.fptr)
      && KeptBeyond(old(fp.cltbl[..]), fp.cltbl[..], old(fp.cltbl[0]))
      && (res == IntErr ==> MarkFollows(fp.fs.Fat(), fp.chain))
    ensures old(fp.err) == Ok && fp.cltbl != null && ofs == CREATE_LINKMAP && (res == Ok || res == NotEnoughCore) ==>
      && fp.cltbl[0] == 2 * Fragments(fp.chain) + 2
      && (res == Ok <==> fp.cltbl[0] <= old(fp.cltbl[0]))
      && (res == Ok ==> MapExact(fp.cltbl[..], fp.chain))
  {
    hide AllWellFormed, TornLast;
    hide FatFs.Ready, FatFs.Journaled, Traced, FatOf, Good, Content, FatFs.Img, MapPrefix, MapExact, Others, Fil.FullyMapped, MarkFollows, KeptBeyond, StoppedShort, Placed, Fragments;
    if fp.err != Ok { return fp.err; }
    if fp.cltbl != null {
      if ofs == CREATE_LINKMAP {
        res := CreateLinkMap(fp);
      } else {
        res := MapSeek(fp, ofs);
      }
    } else {
      res := NormalSeek(fp, ofs);
    }
    if res != Ok && res != NotEnoughCore { fp.err := res; }
  }

  /** Both ways of seeking agree: two states of one file that hold the same bytes, with the
      pointer at the same place, have the same current cluster and, off a sector boundary,
      the same buffered sector with the same file bytes in it. */
  lemma SeekAgree(v: Vol, f: File, w: Vol, h: File)
    requires Good(v, f) && Placed(v.g, f) && Good(w, h) && Placed(w.g, h)
    requires v.g == w.g && f.chain <= h.chain && f.fptr == h.fptr && Content(v, f) == Content(w, h)
    ensures f.fptr > 0 ==> f.clust == h.clust
    ensures Off(v.g, f.fptr) != 0 ==>
      && f.sect == h.sect && |f.buf| == |h.buf| == v.g.ss
      && forall j :: 0 <= j < v.g.ss && Sec(v.g, f.fptr) * v.g.ss + j < f.objsize ==> f.buf[j] == h.buf[j]
  {
    hide Good, Content, Sec, Off, ClusterIndex, SectorOf;
    BufFacts(v, f);
    BufFacts(w, h);
    if Off(v.g, f.fptr) != 0 {
      MidSector(v, f);
      MidSector(w, h);
      BufferSector(v, f);
      BufferSector(w, h);
      SectorInPrefix(v.g, f.chain, h.chain, f.bix);
      forall j | 0 <= j < v.g.ss && Sec(v.g, f.fptr) * v.g.ss + j < f.objsize ensures f.buf[j] == h.buf[j] {
        BufferedByte(v, f, j);
        BufferedByte(w, h, j);
      }
    }
  }

  /** Seeking side by side: two handles on the same file of equal volumes, one with a link map
      and one without, end with the pointer, the current cluster and, off a sector boundary,
      the buffered sector and its file bytes alike, for every offset within the file. */
  method BothSeeks(slow: Fil, fast: Fil, ofs: nat) returns (a: FResult, b: FResult)
    requires slow.Valid() && slow.err == Ok && slow.cltbl == null && !slow.fs.disk.mayFail
    requires fast.Valid() && fast.err == Ok && fast.cltbl != null && fast.FullyMapped() && !fast.fs.disk.mayFail
    requires slow.fs.geo == fast.fs.geo && slow.chain == fast.chain && slow.Data() == fast.Data()
    requires slow != fast && slow.fs != fast.fs && slow.fs.disk != fast.fs.disk
    requires slow.buf !in {fast.buf, fast.fs.win} && slow.fs.win !in {fast.buf, fast.fs.win}
    requires fast.cltbl as object !in {slow.buf as object, slow.fs.win}
    requires ofs <= |slow.Data()| && ofs < CREATE_LINKMAP
    modifies slow`err, slow`objsize, slow`modified, slow`dirty, slow`sect, slow`bix, slow`fptr, slow.buf, slow`clust, slow`chain, slow`sclust
    modifies slow.fs`wflag, slow.fs`winsect, slow.fs`marks, slow.fs`bypass, slow.fs`log, slow.fs`fats, slow.fs`lastClst, slow.fs`freeClst, slow.fs`fsiDirty, slow.fs.win, slow.fs.disk
    modifies fast`err, fast`objsize, fast`modified, fast`dirty, fast`sect, fast`bix, fast`fptr, fast.buf, fast`clust
    modifies fast.fs`marks, fast.fs`bypass, fast.fs.disk
    ensures a == Ok && b == Ok && slow.Valid() && fast.Valid()
    ensures slow.Data() == old(slow.Data()) && fast.Data() == old(fast.Data())
    ensures slow.fptr == fast.fptr == ofs && (ofs > 0 ==> slow.clust == fast.clust)
    ensures Off(slow.fs.geo, ofs) != 0 ==>
      && slow.sect == fast.sect && slow.buf.Length == fast.buf.Length == slow.fs.geo.ss
      && forall j :: 0 <= j < slow.fs.geo.ss && Sec(slow.fs.geo, ofs) * slow.fs.geo.ss + j < |slow.Data()| ==> slow.buf[j] == fast.buf[j]
  {
    hide FatFs.Ready, FatFs.Journaled, Traced, FatOf, Good, Content, FatFs.Img, MapPrefix, MapExact, Others, Placed, Reaches;
    b := MapSeek(fast, ofs);
    a := NormalSeek(slow, ofs);
    hide Fil.Sane, Fil.Mapped;
    InsideBytes(slow.V(), slow.F());
    BufFacts(slow.V(), slow.F());
    BufFacts(fast.V(), fast.F());
    SamePrefix(old(slow.Data()), slow.Data());
    SeekAgree(fast.V(), fast.F(), slow.V(), slow.F());
  }

  lemma SectorInPrefix(g: Geo, a: seq<nat>, b: seq<nat>, k: nat)
    requires a <= b && ClusterIndex(g, k) < |a|
    ensures SectorOf(g, a, k) == SectorOf(g, b, k)
  {
  }

  lemma BufferSector(v: Vol, f: File)
    requires Good(v, f) && f.sect != 0
    ensures f.sect == SectorOf(v.g, f.chain, f.bix)
  {
  }

  /** The buffer holds the file's bytes at its sector. */
  lemma BufferedByte(v: Vol, f: File, j: nat)
    requires Good(v, f) && f.sect != 0 && j < v.g.ss && f.bix * v.g.ss + j < f.objsize
    ensures |f.buf| == v.g.ss && |Content(v, f)| == f.objsize
    ensures f.buf[j] == Content(v, f)[f.bix * v.g.ss + j]
  {
    hide Good, Content, Sec, Off, Staged;
    BufFacts(v, f);
    PosOf(v.g, f.bix, j);
    PointerAnywhere(v, f, f.bix * v.g.ss + j);
    var h := f.(fptr := f.bix * v.g.ss + j);
    ReadPart(v, h, 1);
    OneByte(h.buf, j, Content(v, h), h.fptr);
  }

  lemma PointerAnywhere(v: Vol, f: File, p: nat)
    requires Good(v, f) && f.sect != 0 && f.bix == Sec(v.g, p) && p < f.objsize
    ensures Staged(v, f.(fptr := p)) && Content(v, f.(fptr := p)) == Content(v, f)
  {
    SetPointer(v, f, p);
    hide GoodVol, Content, Sec, Off;
  }

  lemma OneByte(a: seq<byte>, i: nat, b: seq<byte>, j: nat)
    requires i < |a| && j < |b| && a[i..i + 1] == b[j..j + 1]
    ensures a[i] == b[j]
  {
    assert a[i] == a[i..i + 1][0] && b[j] == b[j..j + 1][0];
  }

  // ----- f_open with FA_OPEN_APPEND

  /** The loop that follows the chain to the cluster of the last byte. */
  method LastCluster(fp: Fil) returns (res: FResult, clst: nat, ofs: nat, ghost i: nat)
    requires fp.Sane() && fp.objsize > 0
    modifies fp.fs`wflag, fp.fs`winsect, fp.fs`marks, fp.fs.win, fp.fs.disk
    ensures fp.Sane() && fp.fs.Img() == old(fp.fs.Img()) && fp.Data() == old(fp.Data()) && fp.fs.Grows()
    ensures res == Ok || (res == DiskErr && fp.fs.disk.mayFail)
    ensures res == Ok ==>
      && i < |fp.chain| && clst == fp.chain[i]
      && 1 <= ofs <= fp.fs.geo.ClusterBytes() && i * fp.fs.geo.ClusterBytes() + ofs == fp.objsize
  {
    hide Fil.Sane, FatFs.Img, FatOf, Fil.Data, Geo.ClusterBytes;
    ghost var img := fp.fs.Img();
    LastClusterFacts(fp);
    SaneStart(fp);
    var bcs := fp.fs.geo.ClusterBytes();
    res, clst, ofs, i := Ok, fp.sclust, fp.objsize, 0;
    while ofs > bcs
      invariant fp.Sane() && fp.fs.Img() == img && fp.Data() == old(fp.Data()) && fp.fs.Grows() && res == Ok
      invariant i < |fp.chain| && clst == fp.chain[i] && ofs >= 1 && i * bcs + ofs == fp.objsize
    {
      NotLast(i, |fp.chain|, bcs, ofs, false);
      clst := FollowLink(fp, clst, i);
      i := i + 1;
      ofs := ofs - bcs;
      if clst <= 1 { return IntErr, clst, ofs, i; }
      if clst == DISK_ERROR { return DiskErr, clst, ofs, i; }
    }
  }

  lemma LastClusterFacts(fp: Fil)
    requires fp.Sane()
    ensures fp.fs.geo.ClusterBytes() > 0 && fp.objsize <= |fp.chain| * fp.fs.geo.ClusterBytes()
    ensures fp.objsize > 0 ==> fp.chain != []
  {
    hide FatFs.Ready, FatFs.Journaled, Traced, Good, FatFs.Img, FatOf;
    GeoFacts(fp.V(), fp.F());
    InsideBytes(fp.V(), fp.F());
    MulAtLeast(fp.fs.geo.csize, fp.fs.geo.ss);
  }

  /** The seek to the end of file in `f_open`: the pointer ends up at the size. */
  method SeekEnd(fp: Fil) returns (res: FResult)
    requires fp.Valid() && fp.err == Ok && fp.fptr == 0 && fp.sect == 0 && fp.cltbl == null
    modifies fp`clust, fp`sect, fp`bix, fp`fptr, fp`objsize, fp`modified, fp`dirty, fp.buf
    modifies fp.fs`wflag, fp.fs`winsect, fp.fs`marks, fp.fs`bypass, fp.fs.win, fp.fs.disk
    ensures fp.Intact() && fp.fs.Grows()
    ensures res == Ok || (res == DiskErr && fp.fs.disk.mayFail)
    ensures res == Ok ==> fp.Valid() && fp.fptr == fp.objsize == old(fp.objsize) && fp.Data() == old(fp.Data())
  {
    hide FatFs.Ready, FatFs.Journaled, Traced, Good, FatFs.Img, FatOf, Content, Reaches, Placed, Sec, Off, SectorOf, SectorCount, Clust2Sect, Others, Holds;
    res := Ok;
    BufFacts(fp.V(), fp.F());
    GeoFacts(fp.V(), fp.F());
    if fp.objsize > 0 {
      var clst, ofs, sc := 0, 0, 0;
      ghost var i;
      res, clst, ofs, i := LastCluster(fp);
      if res != Ok { return; }
      Reclust(fp.V(), fp.F(), clst);
      fp.clust := clst;
      TargetPlace(fp.V(), fp.F(), i, ofs, fp.objsize);
      if ofs % fp.fs.geo.ss != 0 {
        sc := Clust2Sect(fp.fs.geo, clst);
        if sc == 0 { return IntErr; }
        sc := sc + ofs / fp.fs.geo.ss;
      }
      ghost var whole := fp.Data();
      res := FinishSeek(fp, fp.objsize, sc);
      if res == Ok {
        SamePrefix(whole, fp.Data());
        BufFacts(fp.V(), fp.F());
      }
    }
  }
}
