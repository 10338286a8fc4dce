/** The FAT as a linked structure: an entry is free (0), a link to another cluster, or
    an end mark (any value at or above the number of entries). */
module Chains {

  type FatMap = seq<nat>

  predicate InRange(fat: FatMap, c: nat)
  {
    2 <= c < |fat|
  }

  predicate Link(fat: FatMap, c: nat)
  {
    InRange(fat, c) && InRange(fat, fat[c])
  }

  ghost predicate Ranked(fat: FatMap, rank: seq<nat>)
  {
    |rank| == |fat| && forall c :: 0 <= c < |fat| && Link(fat, c) ==> rank[fat[c]] < rank[c]
  }

  /** Entries hold 0, an end mark or a cluster number; links target clusters in use; no
      cluster has two predecessors; some rank falls along every link, so nothing cycles. */
  ghost predicate WellFormed(fat: FatMap)
  {
    && (forall c :: 2 <= c < |fat| ==> fat[c] != 1)
    && (forall c :: 0 <= c < |fat| && Link(fat, c) ==> fat[fat[c]] != 0)
    && (forall c, d :: 0 <= c < |fat| && 0 <= d < |fat| && Link(fat, c) && Link(fat, d) && fat[c] == fat[d] ==> c == d)
    && exists rank :: Ranked(fat, rank)
  }

  ghost predicate NoPredecessor(fat: FatMap, c: nat)
  {
    forall d :: 0 <= d < |fat| && Link(fat, d) ==> fat[d] != c
  }

  /** A sequence of clusters joined by links. */
  ghost predicate IsPath(fat: FatMap, s: seq<nat>)
  {
    && (forall i :: 0 <= i < |s| ==> InRange(fat, s[i]))
    && (forall i :: 0 <= i < |s| - 1 ==> fat[s[i]] == s[i + 1])
  }

  /** A path that ends at an end mark. */
  ghost predicate IsChain(fat: FatMap, s: seq<nat>)
  {
    |s| > 0 && IsPath(fat, s) && fat[s[|s| - 1]] >= |fat|
  }

  /** Each cluster of a path links to the next. */
  lemma PathStep(fat: FatMap, s: seq<nat>, i: nat)
    requires IsPath(fat, s) && i + 1 < |s|
    ensures Link(fat, s[i]) && fat[s[i]] == s[i + 1]
  {
    assert InRange(fat, s[i]) && InRange(fat, s[i + 1]);
    assert fat[s[i]] == s[i + 1];
  }

  /** A well-formed FAT has no cycle. */
  lemma NoCycle(fat: FatMap, s: seq<nat>)
    requires WellFormed(fat) && IsPath(fat, s) && |s| >= 2
    ensures s[0] != s[|s| - 1]
  {
    var rank :| Ranked(fat, rank);
    RankFalls(fat, rank, s);
  }

  lemma {:induction false} RankFalls(fat: FatMap, rank: seq<nat>, s: seq<nat>)
    requires Ranked(fat, rank) && IsPath(fat, s) && |s| >= 2
    ensures rank[s[|s| - 1]] < rank[s[0]]
  {
    PathStep(fat, s, 0);
    if |s| > 2 {
      forall i | 0 <= i < |s| - 2 ensures fat[s[1..][i]] == s[1..][i + 1] { PathStep(fat, s, i + 1); }
      RankFalls(fat, rank, s[1..]);
    }
  }

  /** Every cluster in use starts a chain. */
  lemma ChainExists(fat: FatMap, c: nat) returns (s: seq<nat>)
    requires WellFormed(fat) && InRange(fat, c) && fat[c] != 0
    ensures IsChain(fat, s) && s[0] == c
  {
    var rank :| Ranked(fat, rank);
    s := Follow(fat, rank, c);
  }

  lemma {:induction false} Follow(fat: FatMap, rank: seq<nat>, c: nat) returns (s: seq<nat>)
    requires Ranked(fat, rank) && InRange(fat, c) && fat[c] != 0
    requires forall d :: 2 <= d < |fat| ==> fat[d] != 1
    requires forall d :: 0 <= d < |fat| && Link(fat, d) ==> fat[fat[d]] != 0
    ensures IsChain(fat, s) && s[0] == c
    decreases rank[c]
  {
    if fat[c] >= |fat| {
      s := [c];
    } else {
      assert Link(fat, c);
      var t := Follow(fat, rank, fat[c]);
      s := [c] + t;
    }
  }

  /** A chain is determined by its first cluster. */
  lemma {:induction false} ChainUnique(fat: FatMap, s: seq<nat>, t: seq<nat>)
    requires IsChain(fat, s) && IsChain(fat, t) && s[0] == t[0]
    ensures s == t
    decreases |s|
  {
    assert |s| > 1 ==> fat[s[0]] == s[1] && InRange(fat, s[1]);
    assert |t| > 1 ==> fat[t[0]] == t[1] && InRange(fat, t[1]);
    if |s| == 1 || |t| == 1 {
      assert s == [s[0]] && t == [t[0]];
    } else {
      ChainUnique(fat, s[1..], t[1..]);
      assert s == [s[0]] + s[1..] && t == [t[0]] + t[1..];
    }
  }

  lemma ChainSuffix(fat: FatMap, s: seq<nat>, i: nat)
    requires IsChain(fat, s) && i < |s|
    ensures IsChain(fat, s[i..]) && s[i..][0] == s[i]
  {
  }

  /** A chain visits no cluster twice. */
  lemma ChainDistinct(fat: FatMap, s: seq<nat>, i: nat, j: nat)
    requires IsChain(fat, s) && i < j < |s|
    ensures s[i] != s[j]
  {
    if s[i] == s[j] {
      ChainSuffix(fat, s, i);
      ChainSuffix(fat, s, j);
      ChainUnique(fat, s[i..], s[j..]);
    }
  }

  ghost predicate Distinct(s: seq<nat>)
  {
    forall i, j :: 0 <= i < j < |s| ==> s[i] != s[j]
  }

  lemma ChainIsDistinct(fat: FatMap, s: seq<nat>)
    requires IsChain(fat, s)
    ensures Distinct(s)
  {
    forall i, j | 0 <= i < j < |s| ensures s[i] != s[j] { ChainDistinct(fat, s, i, j); }
  }

  ghost predicate Apart(s: seq<nat>, t: seq<nat>)
  {
    forall c :: c in s ==> c !in t
  }

  /** Chains with heads that nothing links to meet only if they are the same chain. */
  lemma {:induction false} HeadsApart(fat: FatMap, s: seq<nat>, t: seq<nat>)
    requires WellFormed(fat) && IsChain(fat, s) && IsChain(fat, t) && s[0] != t[0]
    requires NoPredecessor(fat, s[0]) && NoPredecessor(fat, t[0])
    ensures Apart(s, t)
  {
    forall i: nat, j: nat | i < |s| && j < |t| ensures s[i] != t[j] {
      NeverMeet(fat, s, t, i, j);
    }
  }

  lemma {:induction false} NeverMeet(fat: FatMap, s: seq<nat>, t: seq<nat>, i: nat, j: nat)
    requires WellFormed(fat) && IsChain(fat, s) && IsChain(fat, t) && s[0] != t[0]
    requires NoPredecessor(fat, s[0]) && NoPredecessor(fat, t[0])
    requires i < |s| && j < |t|
    ensures s[i] != t[j]
  {
    if i > 0 { PathStep(fat, s, i - 1); }
    if j > 0 { PathStep(fat, t, j - 1); }
    if i > 0 && j > 0 {
      NeverMeet(fat, s, t, i - 1, j - 1);
    }
  }

  /** A FAT without links. */
  lemma NoLinks(fat: FatMap)
    requires forall c :: 0 <= c < |fat| ==> fat[c] == 0 || (fat[c] >= |fat| && fat[c] != 1)
    ensures WellFormed(fat)
  {
    assert Ranked(fat, fat);
  }

  // ----- what one put_fat does to a well-formed FAT

  /** Marking a free cluster as an end keeps the FAT well formed: a lost cluster at worst. */
  lemma MarkEnd(fat: FatMap, c: nat, eoc: nat)
    requires WellFormed(fat) && InRange(fat, c) && eoc >= |fat|
    ensures WellFormed(fat[c := eoc])
    ensures fat[c] == 0 ==> NoPredecessor(fat, c) && NoPredecessor(fat[c := eoc], c)
  {
    var rank :| Ranked(fat, rank);
    var f := fat[c := eoc];
    forall d | 0 <= d < |f| && Link(f, d) ensures Link(fat, d) && f[d] == fat[d] {}
    assert Ranked(f, rank);
  }

  /** Linking an end to a cluster without predecessor keeps the FAT well formed. */
  lemma LinkEnd(fat: FatMap, p: nat, c: nat)
    requires WellFormed(fat) && InRange(fat, p) && InRange(fat, c) && p != c
    requires fat[p] >= |fat| && fat[c] >= |fat| && NoPredecessor(fat, c)
    ensures WellFormed(fat[p := c])
  {
    var rank :| Ranked(fat, rank);
    var f := fat[p := c];
    var raised := seq(|fat|, i requires 0 <= i < |fat| => if i == c then 0 else rank[i] + 1);
    forall d | 0 <= d < |f| && Link(f, d) ensures d != c && (d == p || (Link(fat, d) && f[d] == fat[d] && f[d] != c)) {}
    assert Ranked(f, raised);
  }

  /** Freeing a cluster that nothing links to keeps the FAT well formed. */
  lemma FreeHead(fat: FatMap, c: nat)
    requires WellFormed(fat) && InRange(fat, c) && NoPredecessor(fat, c)
    ensures WellFormed(fat[c := 0])
    ensures Link(fat, c) ==> NoPredecessor(fat[c := 0], fat[c])
  {
    var rank :| Ranked(fat, rank);
    var f := fat[c := 0];
    forall d | 0 <= d < |f| && Link(f, d) ensures Link(fat, d) && f[d] == fat[d] && d != c {}
    assert Ranked(f, rank);
  }

  // ----- counting free clusters

  /** Number of zero entries at or above index i. */
  function FreeFrom(fat: FatMap, i: nat): (k: nat)
    requires i <= |fat|
    ensures k <= |fat| - i
    decreases |fat| - i
  {
    if i == |fat| then 0 else (if fat[i] == 0 then 1 else 0) + FreeFrom(fat, i + 1)
  }

  /** Number of free clusters. */
  function FreeCount(fat: FatMap): (k: nat)
    ensures |fat| >= 2 ==> k <= |fat| - 2
  {
    if |fat| < 2 then 0 else FreeFrom(fat, 2)
  }

  lemma {:induction false} FreeFromUpdate(fat: FatMap, i: nat, c: nat, v: nat)
    requires i <= |fat| && c < |fat|
    ensures FreeFrom(fat[c := v], i) == FreeFrom(fat, i)
      + (if i <= c && v == 0 then 1 else 0) - (if i <= c && fat[c] == 0 then 1 else 0)
    decreases |fat| - i
  {
    if i < |fat| { FreeFromUpdate(fat, i + 1, c, v); }
  }

  lemma FreeCountUpdate(fat: FatMap, c: nat, v: nat)
    requires InRange(fat, c)
    ensures FreeCount(fat[c := v]) == FreeCount(fat) + (if v == 0 then 1 else 0) - (if fat[c] == 0 then 1 else 0)
  {
    FreeFromUpdate(fat, 2, c, v);
  }

  /** Some cluster is in use exactly when the count is below the number of clusters. */
  lemma {:induction false} FreeBelow(fat: FatMap, i: nat, c: nat)
    requires i <= c < |fat| && fat[c] != 0
    ensures FreeFrom(fat, i) < |fat| - i
    decreases |fat| - i
  {
    if i < c { FreeBelow(fat, i + 1, c); }
  }
}
