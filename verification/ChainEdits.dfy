/** What freeing and stretching chains does to the FAT as a map. */
module ChainEdits {
  import opened Chains

  /** The FATs after each entry is zeroed while walking from c, oldest first. The walk
      stops at a free entry, at an invalid one (1), or after an end mark. */
  function Release(fat: FatMap, c: nat): (steps: seq<FatMap>)
    ensures forall i :: 0 <= i < |steps| ==> |steps[i]| == |fat|
    decreases |fat| - FreeCount(fat)
  {
    if !InRange(fat, c) || fat[c] <= 1 then []
    else
      FreeCountUpdate(fat, c, 0);
      FreeBelow(fat, 2, c);
      [fat[c := 0]] + Release(fat[c := 0], fat[c])
  }

  /** The FAT with an end mark put on the last cluster of u, if there is one. */
  function Ended(fat: FatMap, u: seq<nat>, eoc: nat): (f: FatMap)
    ensures |f| == |fat|
  {
    if u != [] && u[|u| - 1] < |fat| then fat[u[|u| - 1] := eoc] else fat
  }

  /** The walk of `remove_chain` from c meets an invalid entry. */
  predicate MeetsInvalid(fat: FatMap, c: nat)
    decreases |fat| - FreeCount(fat)
  {
    if !InRange(fat, c) || fat[c] == 0 then false
    else if fat[c] == 1 then true
    else
      FreeCountUpdate(fat, c, 0);
      FreeBelow(fat, 2, c);
      MeetsInvalid(fat[c := 0], fat[c])
  }

  /** `free_clst` after k clusters of an n-entry FAT were freed. */
  function Bumped(free: nat, n: nat, k: nat): nat
    decreases k
  {
    if k == 0 then free else Bumped(if free < n - 2 then free + 1 else free, n, k - 1)
  }

  /** A right or unknown free count stays right or unknown while a chain is freed. */
  lemma {:induction false} BumpedCounts(fat: FatMap, c: nat, free: nat)
    requires 2 <= |fat| <= 0x0FFF_FFF7
    requires free == FreeCount(fat) || free == 0xFFFF_FFFF
    ensures free == 0xFFFF_FFFF ==> Bumped(free, |fat|, |Release(fat, c)|) == free
    ensures free != 0xFFFF_FFFF ==> Bumped(free, |fat|, |Release(fat, c)|) == FreeCount(Final(fat, Release(fat, c)))
    decreases |fat| - FreeCount(fat)
  {
    if InRange(fat, c) && fat[c] > 1 {
      FreeCountUpdate(fat, c, 0);
      FreeBelow(fat, 2, c);
      BumpedCounts(fat[c := 0], fat[c], if free == 0xFFFF_FFFF then free else free + 1);
      assert Release(fat, c)[1..] == Release(fat[c := 0], fat[c]);
      assert Release(fat, c)[0] == fat[c := 0];
    }
  }

  function Final(fat: FatMap, steps: seq<FatMap>): FatMap
  {
    if steps == [] then fat else steps[|steps| - 1]
  }

  /** The FAT with the clusters of s freed. */
  ghost function Zeroed(fat: FatMap, s: seq<nat>): (f: FatMap)
    ensures |f| == |fat|
  {
    seq(|fat|, i requires 0 <= i < |fat| => if i in s then 0 else fat[i])
  }

  lemma ZeroedSplit(fat: FatMap, c: nat, s: seq<nat>)
    requires c < |fat|
    ensures Zeroed(fat[c := 0], s) == Zeroed(fat, [c] + s)
  {
  }

  /** Freeing a chain nothing links to takes one step per cluster, frees exactly the
      chain, and every step leaves a well-formed FAT. */
  lemma {:induction false} ReleaseWhole(fat: FatMap, s: seq<nat>)
    requires WellFormed(fat) && IsChain(fat, s) && NoPredecessor(fat, s[0])
    ensures |Release(fat, s[0])| == |s|
    ensures Final(fat, Release(fat, s[0])) == Zeroed(fat, s)
    ensures forall i :: 0 <= i < |s| ==> WellFormed(Release(fat, s[0])[i])
    ensures FreeCount(Zeroed(fat, s)) == FreeCount(fat) + |s|
    decreases |s|
  {
    var c := s[0];
    var f := fat[c := 0];
    FreeHead(fat, c);
    FreeCountUpdate(fat, c, 0);
    ZeroedSplit(fat, c, s[1..]);
    assert s == [c] + s[1..];
    if |s| == 1 {
      assert Release(fat, c) == [f];
      assert Zeroed(f, []) == f;
    } else {
      ChainTail(fat, s);
      ReleaseWhole(f, s[1..]);
      assert Release(fat, c) == [f] + Release(f, s[1]);
    }
  }

  lemma ChainTail(fat: FatMap, s: seq<nat>)
    requires WellFormed(fat) && IsChain(fat, s) && |s| > 1 && NoPredecessor(fat, s[0])
    ensures IsChain(fat[s[0] := 0], s[1..]) && NoPredecessor(fat[s[0] := 0], s[1])
    ensures fat[s[0]] == s[1] && InRange(fat, s[1])
  {
    ChainIsDistinct(fat, s);
    FreeHead(fat, s[0]);
    assert fat[s[0]] == s[1] && InRange(fat, s[1]);
    assert Link(fat, s[0]);
  }

  /** Chains that share no cluster with a freed one are untouched. */
  lemma ReleaseFrame(fat: FatMap, s: seq<nat>, t: seq<nat>)
    requires IsChain(fat, t) && Apart(s, t)
    ensures IsChain(Zeroed(fat, s), t)
  {
    forall i | 0 <= i < |t| ensures Zeroed(fat, s)[t[i]] == fat[t[i]] { assert t[i] !in s; }
  }

  /** Cutting a chain after p keeps the FAT well formed and leaves the tail headless. */
  lemma CutAfter(fat: FatMap, u: seq<nat>, s: seq<nat>, eoc: nat)
    requires WellFormed(fat) && IsChain(fat, u + s) && |u| > 0 && |s| > 0 && eoc >= |fat|
    ensures var f := Ended(fat, u, eoc);
      WellFormed(f) && IsChain(f, u) && IsChain(f, s) && NoPredecessor(f, s[0]) && Apart(s, u)
      && FreeCount(f) == FreeCount(fat)
  {
    var w := u + s;
    var p := u[|u| - 1];
    assert w[|u| - 1] == p && w[|u|] == s[0];
    var f := fat[p := eoc];
    ChainIsDistinct(fat, w);
    assert forall i :: 0 <= i < |u| ==> w[i] == u[i];
    assert forall i :: 0 <= i < |s| ==> w[|u| + i] == s[i];
    MarkEnd(fat, p, eoc);
    assert fat[w[|u| - 1]] == w[|u|];
    assert Link(fat, p) && fat[p] == s[0];
    FreeCountUpdate(fat, p, eoc);
    forall d | 0 <= d < |f| && Link(f, d) ensures f[d] != s[0] { assert Link(fat, d); }
    assert IsPath(f, u);
    assert IsPath(f, s) by { forall i | 0 <= i < |s| - 1 ensures f[s[i]] == s[i + 1] { assert w[|u| + i] == s[i] && w[|u| + i + 1] == s[i + 1]; } }
  }

  lemma CutFrame(fat: FatMap, p: nat, eoc: nat, t: seq<nat>)
    requires IsChain(fat, t) && p !in t && p < |fat|
    ensures IsChain(fat[p := eoc], t)
  {
  }

  /** `remove_chain(clst, pclst)` on a well-formed FAT: with `u + s` the chain that is cut
      between pclst (the last of u) and clst (the first of s), or `u` empty for a whole
      chain, exactly s becomes free and u becomes a complete chain. */
  lemma RemoveTail(fat: FatMap, u: seq<nat>, s: seq<nat>, eoc: nat)
    requires WellFormed(fat) && IsChain(fat, u + s) && |s| > 0 && eoc >= |fat|
    requires u == [] ==> NoPredecessor(fat, s[0])
    ensures var f := Ended(fat, u, eoc);
      && WellFormed(f)
      && |Release(f, s[0])| == |s|
      && Final(f, Release(f, s[0])) == Zeroed(f, s)
      && (forall i :: 0 <= i < |s| ==> WellFormed(Release(f, s[0])[i]))
      && FreeCount(Zeroed(f, s)) == FreeCount(fat) + |s|
      && (u != [] ==> IsChain(Zeroed(f, s), u))
      && (forall t :: IsChain(fat, t) && Apart(u + s, t) ==> IsChain(Zeroed(f, s), t))
  {
    if u == [] {
      assert u + s == s;
      ReleaseWhole(fat, s);
      forall t | IsChain(fat, t) && Apart(u + s, t) ensures IsChain(Zeroed(fat, s), t) { ReleaseFrame(fat, s, t); }
    } else {
      var p := u[|u| - 1];
      assert (u + s)[|u| - 1] == p;
      var f := fat[p := eoc];
      CutAfter(fat, u, s, eoc);
      ReleaseWhole(f, s);
      ReleaseFrame(f, s, u);
      forall t | IsChain(fat, t) && Apart(u + s, t) ensures IsChain(Zeroed(f, s), t) {
        assert p in u + s;
        CutFrame(fat, p, eoc, t);
        assert Apart(s, t) by { forall c | c in s ensures c !in t { assert c in u + s; } }
        ReleaseFrame(f, s, t);
      }
    }
  }

  // ----- stretching

  /** The FAT after a free cluster r is marked as an end, and after it is linked from p. */
  function Marked(fat: FatMap, r: nat, eoc: nat): FatMap
    requires r < |fat|
  {
    fat[r := eoc]
  }

  function Linked(fat: FatMap, p: nat, r: nat, eoc: nat): FatMap
    requires r < |fat| && p < |fat|
  {
    fat[r := eoc][p := r]
  }

  /** Both put_fat of a stretch keep the FAT well formed; the chain grows by exactly the
      new cluster and no other chain changes. */
  lemma Stretch(fat: FatMap, s: seq<nat>, r: nat, eoc: nat)
    requires WellFormed(fat) && IsChain(fat, s) && InRange(fat, r) && fat[r] == 0 && eoc >= |fat|
    ensures var p := s[|s| - 1];
      && WellFormed(Marked(fat, r, eoc)) && WellFormed(Linked(fat, p, r, eoc))
      && r !in s
      && IsChain(Linked(fat, p, r, eoc), s + [r])
      && FreeCount(Linked(fat, p, r, eoc)) == FreeCount(fat) - 1
      && (forall t :: IsChain(fat, t) && p !in t ==> IsChain(Linked(fat, p, r, eoc), t))
  {
    var p := s[|s| - 1];
    var f, h := Marked(fat, r, eoc), Linked(fat, p, r, eoc);
    MarkEnd(fat, r, eoc);
    LinkEnd(f, p, r);
    FreeCountUpdate(fat, r, eoc);
    FreeCountUpdate(f, p, r);
    FreeNotInChain(fat, s, r);
    ChainIsDistinct(fat, s);
    StretchedChain(fat, s, r, eoc);
    forall t | IsChain(fat, t) && p !in t ensures IsChain(h, t) {
      FreeNotInChain(fat, t, r);
      StretchFrame(fat, t, p, r, eoc);
    }
  }

  lemma StretchFrame(fat: FatMap, t: seq<nat>, p: nat, r: nat, eoc: nat)
    requires IsChain(fat, t) && p !in t && r !in t && p < |fat| && r < |fat|
    ensures IsChain(Linked(fat, p, r, eoc), t)
  {
  }

  lemma StretchedChain(fat: FatMap, s: seq<nat>, r: nat, eoc: nat)
    requires IsChain(fat, s) && Distinct(s) && r !in s && InRange(fat, r) && eoc >= |fat|
    ensures IsChain(Linked(fat, s[|s| - 1], r, eoc), s + [r])
  {
    var p := s[|s| - 1];
    var h := Linked(fat, p, r, eoc);
    var w := s + [r];
    forall i | 0 <= i < |w| - 1 ensures h[w[i]] == w[i + 1] {
      assert w[i] == s[i];
      if i < |s| - 1 { assert s[i] != p; }
    }
  }

  lemma FreeNotInChain(fat: FatMap, s: seq<nat>, r: nat)
    requires IsChain(fat, s) && InRange(fat, r) && fat[r] == 0
    ensures r !in s
  {
    forall i | 0 <= i < |s| ensures s[i] != r {
      if i < |s| - 1 { assert fat[s[i]] == s[i + 1] && InRange(fat, s[i + 1]); }
    }
  }

  /** A new chain of one cluster. */
  lemma StartChain(fat: FatMap, r: nat, eoc: nat)
    requires WellFormed(fat) && InRange(fat, r) && fat[r] == 0 && eoc >= |fat|
    ensures var f := Marked(fat, r, eoc);
      && WellFormed(f) && IsChain(f, [r]) && NoPredecessor(f, r)
      && FreeCount(f) == FreeCount(fat) - 1
      && (forall t :: IsChain(fat, t) ==> IsChain(f, t))
  {
    var f := Marked(fat, r, eoc);
    MarkEnd(fat, r, eoc);
    FreeCountUpdate(fat, r, eoc);
    forall t | IsChain(fat, t) ensures IsChain(f, t) {
      FreeNotInChain(fat, t, r);
    }
  }
}
