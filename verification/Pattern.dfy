/** Wildcard matching of file names: `pattern_matching`. */
module Pattern {
  import opened Bytes

  const ANY: nat := 0x3F  // '?'
  const STAR: nat := 0x2A // '*'

  // ----- characters of a string, code page 949

  /** A string in memory up to and including its terminator. */
  predicate CString(s: seq<byte>)
  {
    |s| > 0 && s[|s| - 1] == 0 && forall i :: 0 <= i < |s| - 1 ==> s[i] != 0
  }

  predicate IsLower(c: byte)
  {
    0x61 <= c <= 0x7A
  }

  predicate IsDbcs1(c: byte)
  {
    0x81 <= c <= 0xFE
  }

  predicate IsDbcs2(c: byte)
  {
    0x41 <= c <= 0x5A || 0x61 <= c <= 0x7A || 0x81 <= c <= 0xFE
  }

  predicate DoubleAt(s: seq<byte>, i: nat)
    requires i < |s|
  {
    i + 1 < |s| && IsDbcs1(s[i]) && IsDbcs2(s[i + 1])
  }

  /** The upper-cased character at i. */
  function CharAt(s: seq<byte>, i: nat): nat
    requires i < |s|
  {
    if DoubleAt(s, i) then s[i] as nat * 0x100 + s[i + 1] as nat
    else if IsLower(s[i]) then s[i] as nat - 0x20
    else s[i] as nat
  }

  function NextAt(s: seq<byte>, i: nat): nat
    requires i < |s|
  {
    if DoubleAt(s, i) then i + 2 else i + 1
  }

  /** The characters from i up to the terminator. */
  function Chars(s: seq<byte>, i: nat): seq<nat>
    requires CString(s) && i < |s|
    decreases |s| - i
  {
    if i == |s| - 1 then [] else [CharAt(s, i)] + Chars(s, NextAt(s, i))
  }

  /** `get_achar`: a character, 0 at the terminator, and the pointer past it. */
  method GetAchar(s: seq<byte>, ptr: nat) returns (chr: nat, next: nat)
    requires CString(s) && ptr < |s|
    ensures chr == 0 <==> ptr == |s| - 1
    ensures chr != 0 ==> chr == CharAt(s, ptr) && next == NextAt(s, ptr) < |s|
    ensures ptr < next <= |s|
    ensures var c := s[ptr];
      if chr != 0 && 0x81 <= c <= 0xFE && (0x41 <= s[ptr + 1] <= 0x5A || 0x61 <= s[ptr + 1] <= 0x7A || 0x81 <= s[ptr + 1] <= 0xFE)
      then next == ptr + 2 && chr == c as nat * 0x100 + s[ptr + 1] as nat
      else next == ptr + 1 && chr == if 0x61 <= c <= 0x7A then c as nat - 0x20 else c as nat
  {
    chr := s[ptr] as nat;
    next := ptr + 1;
    if IsLower(s[ptr]) { chr := chr - 0x20; }
    if IsDbcs1(s[ptr]) && IsDbcs2(s[next]) {
      chr := chr * 0x100 + s[next] as nat;
      next := next + 1;
    }
  }

  // ----- what a pattern means

  /** '?' stands for any character, '*' for any run of characters. */
  ghost predicate Matches(p: seq<nat>, n: seq<nat>)
    decreases |p|
  {
    if p == [] then n == []
    else if p[0] == 0x2A then exists k :: 0 <= k <= |n| && Matches(p[1..], n[k..])
    else n != [] && (p[0] == 0x3F || p[0] == n[0]) && Matches(p[1..], n[1..])
  }

  predicate IsWild(c: nat)
  {
    c == ANY || c == STAR
  }

  /** p matches after skip characters, or after at least skip characters. */
  ghost predicate Search(p: seq<nat>, n: seq<nat>, skip: nat, inf: bool)
  {
    skip <= |n| && if inf then exists k :: skip <= k <= |n| && Matches(p, n[k..]) else Matches(p, n[skip..])
  }

  /** Number of '?' in a block of wildcards, and whether it has a '*'. */
  function Skips(w: seq<nat>): nat
  {
    if w == [] then 0 else Skips(w[1..]) + (if w[0] == ANY then 1 else 0)
  }

  predicate HasStar(w: seq<nat>)
  {
    exists i :: 0 <= i < |w| && w[i] == STAR
  }

  /** A block of wildcards only counts its '?'s and asks whether there is a '*'. */
  lemma {:induction false} BlockMeaning(w: seq<nat>, q: seq<nat>, n: seq<nat>)
    requires forall i :: 0 <= i < |w| ==> IsWild(w[i])
    ensures Matches(w + q, n) <==> Search(q, n, Skips(w), HasStar(w))
    decreases |w|
  {
    if w == [] {
      assert w + q == q && n[0..] == n;
    } else {
      var v := w[1..];
      assert (w + q)[1..] == v + q;
      assert HasStar(w) <==> w[0] == STAR || HasStar(v) by {
        if HasStar(v) { var i :| 0 <= i < |v| && v[i] == STAR; assert w[i + 1] == STAR; }
        if HasStar(w) && w[0] != STAR { var i :| 0 <= i < |w| && w[i] == STAR; assert v[i - 1] == STAR; }
      }
      if w[0] == ANY { AnyFirst(v, q, n); } else { StarFirst(v, q, n); }
    }
  }

  lemma AnyFirst(v: seq<nat>, q: seq<nat>, n: seq<nat>)
    requires forall i :: 0 <= i < |v| ==> IsWild(v[i])
    ensures n != [] && Matches(v + q, n[1..]) <==> Search(q, n, Skips(v) + 1, HasStar(v))
    decreases |v| + 1, 0
  {
    if n != [] {
      BlockMeaning(v, q, n[1..]);
      assert forall k :: 0 <= k < |n| ==> n[1..][k..] == n[k + 1..];
      if Search(q, n, Skips(v) + 1, HasStar(v)) && HasStar(v) {
        var k :| Skips(v) + 1 <= k <= |n| && Matches(q, n[k..]);
        assert n[1..][k - 1..] == n[k..];
      }
    }
  }

  lemma StarFirst(v: seq<nat>, q: seq<nat>, n: seq<nat>)
    requires forall i :: 0 <= i < |v| ==> IsWild(v[i])
    ensures (exists k :: 0 <= k <= |n| && Matches(v + q, n[k..])) <==> Search(q, n, Skips(v), true)
    decreases |v| + 1, 0
  {
    forall k | 0 <= k <= |n| ensures Matches(v + q, n[k..]) <==> Search(q, n[k..], Skips(v), HasStar(v)) {
      BlockMeaning(v, q, n[k..]);
    }
    if k :| 0 <= k <= |n| && Matches(v + q, n[k..]) {
      if HasStar(v) {
        var j :| Skips(v) <= j <= |n[k..]| && Matches(q, n[k..][j..]);
        assert n[k..][j..] == n[k + j..];
      } else {
        assert n[k..][Skips(v)..] == n[k + Skips(v)..];
      }
    }
    if Search(q, n, Skips(v), true) {
      var j :| Skips(v) <= j <= |n| && Matches(q, n[j..]);
      var k := j - Skips(v);
      assert n[k..][Skips(v)..] == n[j..];
      assert Matches(v + q, n[k..]);
    }
  }

  // ----- the search

  /** Number of leading characters that are no wildcards. */
  function Literals(p: seq<nat>): nat
  {
    if p == [] || IsWild(p[0]) then 0 else 1 + Literals(p[1..])
  }

  /** A name shorter than the leading literals cannot match. */
  lemma {:induction false} TooShort(p: seq<nat>, n: seq<nat>)
    requires Matches(p, n)
    ensures Literals(p) <= |n|
  {
    if p != [] && !IsWild(p[0]) { TooShort(p[1..], n[1..]); }
  }

  predicate WildAt(s: seq<byte>, i: nat)
    requires i < |s|
  {
    s[i] == 0x3F || s[i] == 0x2A
  }

  lemma WildChar(s: seq<byte>, i: nat)
    requires CString(s) && i < |s| - 1
    ensures WildAt(s, i) <==> IsWild(CharAt(s, i))
    ensures WildAt(s, i) ==> NextAt(s, i) == i + 1 && CharAt(s, i) == s[i] as nat
    ensures CharAt(s, i) != 0
    ensures Chars(s, i) == [CharAt(s, i)] + Chars(s, NextAt(s, i)) && NextAt(s, i) < |s|
  {
  }

  lemma {:induction false} BlockGrows(w: seq<nat>, c: nat)
    ensures Skips(w + [c]) == Skips(w) + (if c == ANY then 1 else 0)
    ensures HasStar(w + [c]) <==> HasStar(w) || c == STAR
    decreases |w|
  {
    if w != [] {
      assert (w + [c])[1..] == w[1..] + [c];
      BlockGrows(w[1..], c);
    }
    if HasStar(w) { var i :| 0 <= i < |w| && w[i] == STAR; assert (w + [c])[i] == STAR; }
    if c == STAR { assert (w + [c])[|w|] == STAR; }
  }

  /** "Analyze the wildcard chars": the block that starts at pp0. */
  method WildBlock(pat: seq<byte>, pp0: nat) returns (pp: nat, nm: nat, nx: bool, ghost w: seq<nat>)
    requires CString(pat) && pp0 < |pat| && WildAt(pat, pp0)
    ensures pp0 < pp < |pat| && Chars(pat, pp0) == w + Chars(pat, pp)
    ensures (forall i :: 0 <= i < |w| ==> IsWild(w[i])) && nm == Skips(w) && nx == HasStar(w)
  {
    hide Chars, CharAt, NextAt, DoubleAt;
    pp, nm, nx, w := pp0, 0, false, [];
    while true
      invariant pp0 <= pp < |pat| && WildAt(pat, pp) && Chars(pat, pp0) == w + Chars(pat, pp)
      invariant (forall i :: 0 <= i < |w| ==> IsWild(w[i])) && nm == Skips(w) && nx == HasStar(w)
      decreases |pat| - pp
    {
      WildChar(pat, pp);
      BlockGrows(w, pat[pp] as nat);
      w := w + [pat[pp] as nat];
      if pat[pp] == 0x3F { nm := nm + 1; } else { nx := true; }
      pp := pp + 1;
      if !WildAt(pat, pp) { break; }
    }
  }

  /** Match the pattern against the name at one place. nc is the name character the attempt
      stopped at, 0 at the end of the name. */
  method TryHere(pat: seq<byte>, nam: seq<byte>, pat0: nat, nam0: nat) returns (m: bool, nc: nat)
    requires CString(pat) && CString(nam) && pat0 < |pat| && nam0 < |nam|
    ensures m <==> Matches(Chars(pat, pat0), Chars(nam, nam0))
    ensures !m && nc == 0 ==> |Chars(nam, nam0)| <= Literals(Chars(pat, pat0))
    ensures !m && nc != 0 ==> nam0 < |nam| - 1
    decreases |pat| - pat0, 0
  {
    var pp, np := pat0, nam0;
    ghost var p, n := Chars(pat, pat0), Chars(nam, nam0);
    ghost var used: nat := 0;
    while true
      invariant pat0 <= pp < |pat| && nam0 <= np < |nam| && (used == 0 ==> pp == pat0)
      invariant Matches(p, n) <==> Matches(Chars(pat, pp), Chars(nam, np))
      invariant Literals(p) == used + Literals(Chars(pat, pp)) && |n| == used + |Chars(nam, np)|
      decreases |pat| - pp
    {
      if pp < |pat| - 1 { WildChar(pat, pp); }
      if np < |nam| - 1 { WildChar(nam, np); }
      if WildAt(pat, pp) {
        var rest, nm, nx;
        ghost var w;
        rest, nm, nx, w := WildBlock(pat, pp);
        BlockMeaning(w, Chars(pat, rest), Chars(nam, np));
        m := PatternMatching(pat, nam, rest, np, nm, nx);
        nc := nam[np] as nat;
        return;
      }
      var pc;
      ghost var pp1, np1 := pp, np;
      pc, pp := GetAchar(pat, pp);
      nc, np := GetAchar(nam, np);
      if pc != nc { return false, nc; }
      if pc == 0 { return true, nc; }
      used := used + 1;
      assert Chars(pat, pp1)[1..] == Chars(pat, pp) && Chars(nam, np1)[1..] == Chars(nam, np);
    }
  }

  /** `pattern_matching`: the pattern matches after skip characters of the name or, with inf,
      after at least that many. */
  method PatternMatching(pat: seq<byte>, nam: seq<byte>, pat0: nat, nam0: nat, skip0: nat, inf: bool) returns (m: bool)
    requires CString(pat) && CString(nam) && pat0 < |pat| && nam0 < |nam|
    ensures m <==> Search(Chars(pat, pat0), Chars(nam, nam0), skip0, inf)
    decreases |pat| - pat0, 2
  {
    var ok, at := PreSkip(nam, nam0, skip0);
    if !ok { return false; }
    ghost var p, n := Chars(pat, pat0), Chars(nam, nam0);
    if pat[pat0] == 0 && inf {
      assert n[|n|..] == [] && Matches(p, n[|n|..]);
      return true;
    }
    m := SearchFrom(pat, nam, pat0, nam0, at, skip0, inf);
  }

  /** "Pre-skip name chars" */
  method PreSkip(nam: seq<byte>, nam0: nat, skip0: nat) returns (ok: bool, at: nat)
    requires CString(nam) && nam0 < |nam|
    ensures ok <==> skip0 <= |Chars(nam, nam0)|
    ensures ok ==> at < |nam| && Chars(nam, at) == Chars(nam, nam0)[skip0..]
  {
    var skip: nat := skip0;
    var c;
    at := nam0;
    ghost var n := Chars(nam, nam0);
    assert n[0..] == n;
    while skip > 0
      invariant skip <= skip0 && at < |nam| && skip0 - skip <= |n| && Chars(nam, at) == n[skip0 - skip..]
    {
      ghost var here := Chars(nam, at);
      skip := skip - 1;
      c, at := GetAchar(nam, at);
      if c == 0 { return false, at; }
      assert here[1..] == Chars(nam, at) && here[1..] == n[skip0 - skip..];
    }
    ok := true;
  }

  /** The search from character k0 of the name on. */
  method SearchFrom(pat: seq<byte>, nam: seq<byte>, pat0: nat, ghost nam0: nat, at0: nat, ghost k0: nat, inf: bool) returns (m: bool)
    requires CString(pat) && CString(nam) && pat0 < |pat| && nam0 < |nam| && at0 < |nam|
    requires k0 <= |Chars(nam, nam0)| && Chars(nam, at0) == Chars(nam, nam0)[k0..]
    ensures m <==> Search(Chars(pat, pat0), Chars(nam, nam0), k0, inf)
    decreases |pat| - pat0, 1
  {
    hide Matches, Search, Chars, Literals;
    ghost var p, n, k := Chars(pat, pat0), Chars(nam, nam0), k0;
    var at := at0;
    while true
      invariant at < |nam| && k0 <= k <= |n| && Chars(nam, at) == n[k..] && (k > k0 ==> inf)
      invariant NoneFrom(p, n, k0, k)
      decreases |nam| - at
    {
      ghost var here := Chars(nam, at);
      var nc, c;
      m, nc := TryHere(pat, nam, pat0, at);
      if m {
        SearchHit(p, n, k0, k, inf);
        return;
      }
      if nc == 0 { NoneLater(p, n, k); }
      OneMoreMiss(p, n, k0, k);
      if !inf || nc == 0 { SearchMiss(p, n, k0, k, inf); }
      if nc != 0 { CharsStep(nam, at); }
      c, at := GetAchar(nam, at);
      if !inf || nc == 0 { return false; }
      assert here[1..] == n[k + 1..];
      k := k + 1;
    }
  }

  /** No match starts at k0 .. k - 1. */
  ghost predicate NoneFrom(p: seq<nat>, n: seq<nat>, k0: nat, k: nat)
    requires k <= |n|
  {
    forall j :: k0 <= j < k ==> !Matches(p, n[j..])
  }

  lemma OneMoreMiss(p: seq<nat>, n: seq<nat>, k0: nat, k: nat)
    requires k <= |n| && NoneFrom(p, n, k0, k) && !Matches(p, n[k..])
    ensures k < |n| ==> NoneFrom(p, n, k0, k + 1)
  {
    hide Matches;
  }

  lemma CharsStep(s: seq<byte>, i: nat)
    requires CString(s) && i < |s| - 1
    ensures NextAt(s, i) < |s| && Chars(s, i)[1..] == Chars(s, NextAt(s, i)) && Chars(s, i) != []
  {
  }

  lemma SearchHit(p: seq<nat>, n: seq<nat>, k0: nat, k: nat, inf: bool)
    requires k0 <= k <= |n| && (k > k0 ==> inf) && Matches(p, n[k..])
    ensures Search(p, n, k0, inf)
  {
    hide Matches;
  }

  lemma SearchMiss(p: seq<nat>, n: seq<nat>, k0: nat, k: nat, inf: bool)
    requires k0 <= k <= |n| && NoneFrom(p, n, k0, k) && !Matches(p, n[k..]) && (!inf ==> k == k0)
    requires inf ==> forall j :: k < j <= |n| ==> !Matches(p, n[j..])
    ensures !Search(p, n, k0, inf)
  {
    hide Matches;
  }

  /** The early exit loses no match. */
  lemma NoneLater(p: seq<nat>, n: seq<nat>, k: nat)
    requires k <= |n| && |n[k..]| <= Literals(p)
    ensures forall j :: k < j <= |n| ==> !Matches(p, n[j..])
  {
    forall j | k < j <= |n| ensures !Matches(p, n[j..]) {
      if Matches(p, n[j..]) { TooShort(p, n[j..]); }
    }
  }

  /** A whole name against a whole pattern. */
  lemma SearchWhole(p: seq<nat>, n: seq<nat>)
    ensures Search(p, n, 0, false) <==> Matches(p, n)
  {
    assert n[0..] == n;
  }
}
