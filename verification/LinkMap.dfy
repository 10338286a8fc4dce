/** The cluster link map: a run-length encoding of a file's chain that replaces walking
    the FAT. Item 0 is the table size; then come pairs (length, first cluster) and a 0. */
module LinkMap {
  import opened Arith

  /** From item i on the table is a list of pairs closed by a 0. */
  ghost predicate Terminated(t: seq<nat>, i: nat)
    decreases |t| - i
  {
    i < |t| && (t[i] == 0 || (i + 1 < |t| && Terminated(t, i + 2)))
  }

  function Fragment(top: nat, n: nat): (s: seq<nat>)
    ensures |s| == n && forall j :: 0 <= j < n ==> s[j] == top + j
  {
    seq(n, j requires 0 <= j => top + j)
  }

  /** The clusters listed from item i on. */
  ghost function Decode(t: seq<nat>, i: nat): seq<nat>
    requires Terminated(t, i)
    decreases |t| - i
  {
    if t[i] == 0 then [] else Fragment(t[i + 1], t[i]) + Decode(t, i + 2)
  }

  /** The table lists the first clusters of a chain. */
  ghost predicate MapPrefix(t: seq<nat>, chain: seq<nat>)
  {
    Terminated(t, 1) && Decode(t, 1) <= chain
  }

  /** The table lists the whole chain. */
  ghost predicate MapExact(t: seq<nat>, chain: seq<nat>)
  {
    Terminated(t, 1) && Decode(t, 1) == chain
  }

  lemma MapGrows(t: seq<nat>, chain: seq<nat>, c: nat)
    requires MapPrefix(t, chain)
    ensures MapPrefix(t, chain + [c])
  {
  }

  /** Length of the first fragment of a chain: the longest run of consecutive numbers. */
  function FirstRun(chain: seq<nat>): (n: nat)
    requires chain != []
    ensures 1 <= n <= |chain|
  {
    if |chain| == 1 || chain[1] != chain[0] + 1 then 1 else 1 + FirstRun(chain[1..])
  }

  /** The pairs (length, first cluster) of the fragments of a chain. */
  function Encode(chain: seq<nat>): seq<nat>
    decreases |chain|
  {
    if chain == [] then []
    else
      [FirstRun(chain), chain[0]] + Encode(chain[FirstRun(chain)..])
  }

  /** Number of fragments. */
  function Fragments(chain: seq<nat>): nat
    decreases |chain|
  {
    if chain == [] then 0 else 1 + Fragments(chain[FirstRun(chain)..])
  }

  /** Encoded tables take two items a fragment, its length first and then its first cluster. */
  lemma {:induction false} EncodeLength(chain: seq<nat>)
    ensures |Encode(chain)| == 2 * Fragments(chain)
    ensures chain != [] ==> |Encode(chain)| >= 2 && Encode(chain)[0] == FirstRun(chain) && Encode(chain)[1] == chain[0]
    decreases |chain|
  {
    if chain != [] { EncodeLength(chain[FirstRun(chain)..]); }
  }

  lemma {:induction false} RunIsFragment(chain: seq<nat>)
    requires chain != []
    ensures Fragment(chain[0], FirstRun(chain)) == chain[..FirstRun(chain)]
    ensures FirstRun(chain) < |chain| ==> chain[FirstRun(chain)] != chain[FirstRun(chain) - 1] + 1
  {
    if |chain| > 1 && chain[1] == chain[0] + 1 {
      RunIsFragment(chain[1..]);
      var n := FirstRun(chain);
      assert chain[..n] == [chain[0]] + chain[1..][..n - 1];
      assert Fragment(chain[0], n) == [chain[0]] + Fragment(chain[1], n - 1);
    }
  }

  /** Decoding an encoded chain, wherever the table stores it, gives the chain back. */
  lemma {:induction false} DecodeEncode(chain: seq<nat>, t: seq<nat>, i: nat)
    requires i + |Encode(chain)| < |t|
    requires t[i..i + |Encode(chain)|] == Encode(chain) && t[i + |Encode(chain)|] == 0
    ensures Terminated(t, i) && Decode(t, i) == chain
    decreases |chain|
  {
    var e := Encode(chain);
    if chain != [] {
      var n := FirstRun(chain);
      var rest := Encode(chain[n..]);
      assert e == [n, chain[0]] + rest;
      assert t[i] == e[0] && t[i + 1] == e[1];
      assert t[i + 2..i + 2 + |rest|] == e[2..] == rest;
      DecodeEncode(chain[n..], t, i + 2);
      RunIsFragment(chain);
      assert chain == chain[..n] + chain[n..];
    }
  }

  /** `clmt_clust`: the k-th cluster of the chain the table encodes, 0 beyond it. */
  method ClmtClust(tbl: array<nat>, ss: nat, csize: nat, ofs: nat) returns (clst: nat)
    requires ss > 0 && csize > 0 && Terminated(tbl[..], 1)
    ensures var chain, k := Decode(tbl[..], 1), ofs / ss / csize;
      clst == if k < |chain| then chain[k] else 0
  {
    var i: nat := 1;
    var cl: nat := ofs / ss / csize;
    ghost var done: nat := 0;
    while true
      invariant i < tbl.Length && Terminated(tbl[..], i)
      invariant done + cl == ofs / ss / csize
      invariant done <= |Decode(tbl[..], 1)| && Decode(tbl[..], 1)[done..] == Decode(tbl[..], i)
      decreases tbl.Length - i
    {
      var ncl := tbl[i];
      i := i + 1;
      if ncl == 0 { return 0; }
      ghost var here := Decode(tbl[..], i - 1);
      assert here == Fragment(tbl[i], ncl) + Decode(tbl[..], i + 1);
      if cl < ncl {
        assert here[cl] == tbl[i] + cl;
        return cl + tbl[i];
      }
      assert here[ncl..] == Decode(tbl[..], i + 1);
      cl := cl - ncl;
      done := done + ncl;
      i := i + 1;
    }
  }
}
