/** Whole runs of reads, writes and seeks on one open file refine a byte sequence with a
    pointer. */
module FileRuns {
  import opened Allocator
  import opened Bytes
  import opened FastSeek
  import opened FatEntries
  import opened FileBytes
  import opened FileModel
  import opened Files
  import opened LinkMap
  import opened Seek
  import opened Window

  datatype FileOp = Read(n: nat) | Write(data: seq<byte>) | Seek(ofs: nat)

  /** What the caller gets back: the bytes read, or the number of bytes written. */
  datatype Outcome = Outcome(res: FResult, bytes: seq<byte>, count: nat)

  /** The abstract file: its bytes, the pointer, and whether the volume has no free cluster. */
  datatype State = State(bytes: seq<byte>, ptr: nat, full: bool)

  predicate Fits(op: FileOp)
  {
    match op
    case Read(n) => true
    case Write(d) => |d| < 0x1_0000_0000
    case Seek(ofs) => ofs < 0x1_0000_0000
  }

  /** One step of the abstract file. Bytes opened up by a seek past the end are unspecified. */
  predicate Step(read: bool, write: bool, s: State, op: FileOp, out: Outcome, t: State)
  {
    match op
    case Read(n) =>
      if read then
        && out.res == Ok && t.bytes == s.bytes && s.ptr <= |s.bytes|
        && t.ptr == (if s.ptr + n <= |s.bytes| then s.ptr + n else |s.bytes|)
        && out.bytes == s.bytes[s.ptr..t.ptr]
      else
        out.res == Denied && out.bytes == [] && t.bytes == s.bytes && t.ptr == s.ptr
    case Write(d) =>
      if write then
        && out.res == Ok && out.count <= |d| && s.ptr <= |s.bytes|
        && t.ptr == s.ptr + out.count
        && t.bytes == s.bytes[..s.ptr] + d[..out.count] + (if t.ptr <= |s.bytes| then s.bytes[t.ptr..] else [])
        && (out.count == |d| || t.ptr == 0xFFFF_FFFF || t.full)
      else
        out.res == Denied && out.count == 0 && t.bytes == s.bytes && t.ptr == s.ptr
    case Seek(ofs) =>
      && out.res == Ok
      && if ofs <= |s.bytes| then t.ptr == ofs && t.bytes == s.bytes
         else if !write then t.ptr == |s.bytes| && t.bytes == s.bytes
         else s.bytes <= t.bytes && |t.bytes| == t.ptr && (t.ptr == ofs || (t.full && t.ptr < ofs))
  }

  /** A trace of abstract states, one per operation. */
  predicate Run(read: bool, write: bool, states: seq<State>, ops: seq<FileOp>, outs: seq<Outcome>)
  {
    && |states| == |ops| + 1 && |outs| == |ops|
    && forall i :: 0 <= i < |ops| ==> Step(read, write, states[i], ops[i], outs[i], states[i + 1])
  }

  ghost function Abs(fp: Fil): State
    reads fp`dirty, fp`objsize, fp`fptr, fp`clust, fp`sect, fp`chain, fp`bix, fp.buf
    reads fp.fs`wflag, fp.fs`winsect, fp.fs.win, fp.fs.disk
  {
    State(fp.Data(), fp.fptr, NoneFree(fp.fs.Fat()))
  }

  /** One call, on a volume whose disk does not fail. */
  method RunOp(fp: Fil, op: FileOp) returns (out: Outcome)
    requires fp.Valid() && fp.err == Ok && fp.cltbl == null && !fp.fs.disk.mayFail && Fits(op)
    modifies fp`err, fp`modified, fp`clust, fp`sclust, fp`chain, fp`dirty, fp`sect, fp`bix, fp`fptr, fp`objsize, fp.buf
    modifies fp.fs`wflag, fp.fs`winsect, fp.fs`marks, fp.fs`bypass, fp.fs`log, fp.fs`fats, fp.fs`lastClst, fp.fs`freeClst, fp.fs`fsiDirty, fp.fs.win, fp.fs.disk
    ensures StaysSafe(fp.fs, true)
    ensures fp.Valid() && fp.err == Ok && fp.fs.Grows()
    ensures Step(fp.canRead, fp.canWrite, old(Abs(fp)), op, out, Abs(fp))
    ensures Others(old(fp.V()), old(fp.chain), fp.V(), fp.chain)
  {
    hide AllWellFormed, TornLast;
    hide FatFs.Ready, FatFs.Journaled, FatFs.Img, Good, Content, MapPrefix, Placed, Others, NoneFree, FatOf;
    OthersSame(fp.V(), fp.chain, fp.V());
    match op {
      case Read(n) =>
        var res, data := FRead(fp, n);
        out := Outcome(res, data, |data|);
      case Write(d) =>
        var res, bw := FWrite(fp, d);
        out := Outcome(res, [], bw);
      case Seek(ofs) =>
        var res := FLseek(fp, ofs);
        InsideBytes(fp.V(), fp.F());
        BufFacts(fp.V(), fp.F());
        out := Outcome(res, [], 0);
    }
  }

  /** Every run of reads, writes and seeks is a run of the abstract file, and no other file
      of the volume changes. */
  method RunFile(fp: Fil, ops: seq<FileOp>) returns (outs: seq<Outcome>, ghost states: seq<State>)
    requires fp.Valid() && fp.err == Ok && fp.cltbl == null && !fp.fs.disk.mayFail
    requires forall i :: 0 <= i < |ops| ==> Fits(ops[i])
    modifies fp`err, fp`modified, fp`clust, fp`sclust, fp`chain, fp`dirty, fp`sect, fp`bix, fp`fptr, fp`objsize, fp.buf
    modifies fp.fs`wflag, fp.fs`winsect, fp.fs`marks, fp.fs`bypass, fp.fs`log, fp.fs`fats, fp.fs`lastClst, fp.fs`freeClst, fp.fs`fsiDirty, fp.fs.win, fp.fs.disk
    ensures StaysSafe(fp.fs, true)
    ensures fp.Valid() && fp.err == Ok && fp.fs.Grows()
    ensures Run(fp.canRead, fp.canWrite, states, ops, outs)
    ensures states[0] == old(Abs(fp)) && states[|ops|] == Abs(fp)
    ensures Others(old(fp.V()), old(fp.chain), fp.V(), fp.chain)
  {
    hide AllWellFormed, TornLast;
    hide Fil.Valid, Abs, Step, Others, FatFs.Img, Placed;
    ghost var v0, c0 := fp.V(), fp.chain;
    OthersSame(v0, c0, v0);
    outs, states := [], [Abs(fp)];
    for i := 0 to |ops|
      invariant old(AllWellFormed(fp.fs.fats)) ==> AllWellFormed(fp.fs.fats)
      invariant fp.Valid() && fp.err == Ok && fp.fs.Grows()
      invariant |states| == i + 1 && |outs| == i && states[0] == old(Abs(fp)) && states[i] == Abs(fp)
      invariant forall j :: 0 <= j < i ==> Step(fp.canRead, fp.canWrite, states[j], ops[j], outs[j], states[j + 1])
      invariant Others(v0, c0, fp.V(), fp.chain)
    {
      ghost var v1, c1 := fp.V(), fp.chain;
      var out := RunOp(fp, ops[i]);
      OthersTrans(v0, c0, v1, c1, fp.V(), fp.chain);
      outs := outs + [out];
      states := states + [Abs(fp)];
    }
  }

  /** Reading back at the same place what a write stored. */
  lemma ReadYourWrite(write: Outcome, seek: Outcome, read: Outcome, d: seq<byte>, states: seq<State>)
    requires |states| == 4 && Run(true, true, states, [Write(d), Seek(states[0].ptr), Read(|d|)], [write, seek, read])
    requires write.count == |d|
    ensures read.bytes == d
  {
    var ops, outs := [Write(d), Seek(states[0].ptr), Read(|d|)], [write, seek, read];
    assert Step(true, true, states[0], ops[0], outs[0], states[1]);
    assert Step(true, true, states[1], ops[1], outs[1], states[2]);
    assert Step(true, true, states[2], ops[2], outs[2], states[3]);
    assert d[..|d|] == d;
    assert states[1].bytes[states[0].ptr..states[0].ptr + |d|] == d;
    assert states[2].bytes[states[0].ptr..states[0].ptr + |d|] == d;
  }
}
