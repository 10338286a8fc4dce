/** The table of open objects: a readers-writer lock per file or directory. */
module Locks {
  import opened Window

  const WRITING: nat := 0x100

  /** What an open object is known by: volume (0 none), start cluster, directory offset. */
  datatype Obj = Obj(fs: nat, clu: nat, ofs: nat)

  /** `FILESEM` */
  datatype Slot = Slot(obj: Obj, ctr: nat)

  /** An open handle: its lock index (from 1), its object and whether it may write. */
  datatype Handle = Handle(lockid: nat, obj: Obj, write: bool)

  const BLANK := Slot(Obj(0, 0, 0), 0)

  /** The handles slot i stands for. */
  ghost predicate SlotHolds(handles: multiset<Handle>, i: nat, s: Slot)
  {
    if s.obj.fs == 0 then
      forall h :: h in handles ==> h.lockid != i + 1
    else if s.ctr == WRITING then
      handles[Handle(i + 1, s.obj, true)] == 1 && handles[Handle(i + 1, s.obj, false)] == 0
    else
      1 <= s.ctr < WRITING && handles[Handle(i + 1, s.obj, false)] == s.ctr && handles[Handle(i + 1, s.obj, true)] == 0
  }

  /** No two slots in use name the same object. */
  ghost predicate DistinctSlots(t: seq<Slot>)
  {
    forall i, j :: 0 <= i < |t| && 0 <= j < |t| && t[i].obj.fs != 0 && t[i].obj == t[j].obj ==> i == j
  }

  /** The table agrees with the set of open handles. */
  ghost predicate Agrees(t: seq<Slot>, handles: multiset<Handle>)
  {
    && DistinctSlots(t)
    && (forall i :: 0 <= i < |t| ==> SlotHolds(handles, i, t[i]))
    && (forall h :: h in handles ==> 1 <= h.lockid <= |t| && h.obj.fs != 0 && t[h.lockid - 1].obj == h.obj)
  }

  ghost predicate IsOpen(handles: multiset<Handle>, obj: Obj)
  {
    exists h :: h in handles && h.obj == obj
  }

  ghost predicate OpenForWrite(handles: multiset<Handle>, obj: Obj)
  {
    exists h :: h in handles && h.obj == obj && h.write
  }

  ghost predicate HasBlank(t: seq<Slot>)
  {
    exists i :: 0 <= i < |t| && t[i].obj.fs == 0
  }

  lemma SlotOpen(t: seq<Slot>, handles: multiset<Handle>, i: nat)
    requires Agrees(t, handles) && i < |t| && t[i].obj.fs != 0
    ensures IsOpen(handles, t[i].obj)
    ensures OpenForWrite(handles, t[i].obj) <==> t[i].ctr == WRITING
  {
    assert SlotHolds(handles, i, t[i]);
    var r, w := Handle(i + 1, t[i].obj, false), Handle(i + 1, t[i].obj, true);
    if t[i].ctr == WRITING {
      assert w in handles;
    } else {
      assert r in handles;
      forall h | h in handles && h.obj == t[i].obj ensures !h.write {
        assert t[h.lockid - 1].obj == t[i].obj;
      }
    }
  }

  /** The lock table of the engine and, as a ghost, the handles it stands for. */
  class LockTable {
    const files: array<Slot>
    ghost var handles: multiset<Handle>

    ghost predicate Valid()
      reads this, files
    {
      Agrees(files[..], handles)
    }

    constructor (n: nat)
      ensures Valid() && handles == multiset{} && files.Length == n && fresh(files)
    {
      files := new Slot[n](_ => BLANK);
      handles := multiset{};
    }

    /** `chk_lock`. acc: 0 read, 1 write, 2 delete or rename. */
    method ChkLock(obj: Obj, acc: nat) returns (res: FResult)
      requires Valid() && obj.fs != 0
      ensures res == Ok || res == Locked || res == TooManyOpenFiles
      ensures res == Locked <==> IsOpen(handles, obj) && (acc != 0 || OpenForWrite(handles, obj))
      ensures res == TooManyOpenFiles <==> !IsOpen(handles, obj) && acc != 2 && !HasBlank(files[..])
    {
      var i, be := 0, false;
      while i < files.Length
        invariant i <= files.Length
        invariant be <==> HasBlank(files[..i])
        invariant forall j :: 0 <= j < i ==> files[j].obj != obj
      {
        assert files[..i + 1] == files[..i] + [files[i]];
        if files[i].obj.fs != 0 {
          if files[i].obj == obj { break; }
        } else {
          be := true;
          assert files[..i + 1][i].obj.fs == 0;
        }
        i := i + 1;
      }
      if i == files.Length {
        assert files[..i] == files[..];
        return if be || acc == 2 then Ok else TooManyOpenFiles;
      }
      SlotOpen(files[..], handles, i);
      return if acc != 0 || files[i].ctr == WRITING then Locked else Ok;
    }

    /** `enq_lock` */
    method EnqLock() returns (free: bool)
      ensures free <==> HasBlank(files[..])
    {
      var i := 0;
      while i < files.Length && files[i].obj.fs != 0
        invariant i <= files.Length && forall j :: 0 <= j < i ==> files[j].obj.fs != 0
      {
        i := i + 1;
      }
      free := i != files.Length;
    }

    /** `inc_lock`. The caller has checked the access. The table stays right unless this is the
        256th reader of the object, whose counter is the mark for write mode. */
    method IncLock(obj: Obj, write: bool) returns (lockid: nat)
      requires Valid() && obj.fs != 0
      requires !write ==> !OpenForWrite(handles, obj)
      modifies this`handles, files
      ensures Valid() <==> write || old(Countable(files[..], obj))
      ensures lockid == 0 <==> if old(IsOpen(handles, obj)) then write else !old(HasBlank(files[..]))
      ensures handles == if lockid == 0 then old(handles) else old(handles) + multiset{Handle(lockid, obj, write)}
      ensures lockid == 0 ==> files[..] == old(files[..])
    {
      hide Agrees, OpenForWrite, Countable;
      ghost var t, held := files[..], handles;
      var i := FindSlot(obj);
      if i == files.Length {
        NotOpen(t, held, obj);
        i := 0;
        while i < files.Length && files[i].obj.fs != 0
          invariant i <= files.Length && forall j :: 0 <= j < i ==> files[j].obj.fs != 0
        {
          i := i + 1;
        }
        if i == files.Length { return 0; }
        Registered(t, held, i, obj, write);
        files[i] := Slot(obj, 0);
      } else {
        SlotOpen(t, held, i);
        UsedCount(t, held, i);
        if write && files[i].ctr != 0 { return 0; }
        Room(t, held, i);
        ReaderLimit(t, held, i);
      }
      files[i] := files[i].(ctr := if write then WRITING else files[i].ctr + 1);
      lockid := i + 1;
      handles := handles + multiset{Handle(lockid, obj, write)};
      assert files[..] == t[i := files[i]];
    }

    /** The first slot that names the object, or the table size. */
    method FindSlot(obj: Obj) returns (i: nat)
      ensures i <= files.Length && forall j :: 0 <= j < i ==> files[j].obj != obj
      ensures i < files.Length ==> files[i].obj == obj
    {
      i := 0;
      while i < files.Length
        invariant i <= files.Length && forall j :: 0 <= j < i ==> files[j].obj != obj
      {
        if files[i].obj == obj { break; }
        i := i + 1;
      }
    }

    /** `dec_lock`, called when handle h is closed. */
    method DecLock(lockid: nat, ghost h: Handle) returns (res: FResult)
      requires Valid()
      requires 1 <= lockid <= files.Length ==> h in handles && h.lockid == lockid
      modifies this`handles, files
      ensures Valid()
      ensures res == if 1 <= lockid <= files.Length then Ok else IntErr
      ensures handles == if res == Ok then old(handles) - multiset{h} else old(handles)
    {
      if lockid == 0 || lockid > files.Length { return IntErr; }
      hide Agrees;
      ghost var t := files[..];
      var i := lockid - 1;
      ghost var s := Closed(t, handles, i, h);
      var n := files[i].ctr;
      if n == WRITING { n := 0; }
      if n > 0 { n := n - 1; }
      files[i] := files[i].(ctr := n);
      if n == 0 { files[i] := files[i].(obj := files[i].obj.(fs := 0)); }
      handles := handles - multiset{h};
      assert files[i] == s && files[..] == t[i := s];
      res := Ok;
    }

    /** `clear_lock`: every handle on the volume is given up. */
    method ClearLock(fs: nat)
      requires Valid() && fs != 0
      modifies this`handles, files
      ensures Valid() && handles == OnOtherVolumes(old(handles), fs)
    {
      hide Agrees;
      ghost var t0 := files[..];
      var i := 0;
      while i < files.Length
        invariant i <= files.Length && handles == old(handles)
        invariant forall j :: 0 <= j < files.Length ==>
          files[j] == if j < i && t0[j].obj.fs == fs then t0[j].(obj := t0[j].obj.(fs := 0)) else t0[j]
      {
        if files[i].obj.fs == fs { files[i] := files[i].(obj := files[i].obj.(fs := 0)); }
        i := i + 1;
      }
      Cleared(t0, files[..], handles, fs);
      handles := OnOtherVolumes(handles, fs);
    }
  }

  /** One more reader of the object can be counted. */
  ghost predicate Countable(t: seq<Slot>, obj: Obj)
  {
    forall i :: 0 <= i < |t| && t[i].obj == obj ==> t[i].ctr != WRITING - 1
  }

  lemma NotOpen(t: seq<Slot>, handles: multiset<Handle>, obj: Obj)
    requires Agrees(t, handles) && forall j :: 0 <= j < |t| ==> t[j].obj != obj
    ensures !IsOpen(handles, obj) && Countable(t, obj)
  {
  }

  lemma Room(t: seq<Slot>, handles: multiset<Handle>, i: nat)
    requires Agrees(t, handles) && i < |t| && t[i].obj.fs != 0 && t[i].ctr != WRITING
    ensures Countable(t, t[i].obj) <==> t[i].ctr != WRITING - 1
  {
    assert SlotHolds(handles, i, t[i]);
  }

  lemma UsedCount(t: seq<Slot>, handles: multiset<Handle>, i: nat)
    requires Agrees(t, handles) && i < |t| && t[i].obj.fs != 0
    ensures t[i].ctr != 0
  {
    assert SlotHolds(handles, i, t[i]);
  }

  /** A handle more on slot i leaves the other slots alone. */
  lemma OtherSlots(handles: multiset<Handle>, h: Handle, j: nat, s: Slot)
    requires SlotHolds(handles, j, s) && h.lockid != j + 1
    ensures SlotHolds(handles + multiset{h}, j, s) && SlotHolds(handles - multiset{h}, j, s)
  {
  }

  lemma Registered(t: seq<Slot>, handles: multiset<Handle>, i: nat, obj: Obj, write: bool)
    requires Agrees(t, handles) && i < |t| && t[i].obj.fs == 0 && obj.fs != 0 && forall j :: 0 <= j < |t| ==> t[j].obj != obj
    ensures Agrees(t[i := Slot(obj, if write then WRITING else 1)], handles + multiset{Handle(i + 1, obj, write)})
  {
    var h := Handle(i + 1, obj, write);
    assert SlotHolds(handles, i, t[i]);
    forall j | 0 <= j < |t| && j != i ensures SlotHolds(handles + multiset{h}, j, t[j]) {
      OtherSlots(handles, h, j, t[j]);
    }
  }

  lemma Counted(t: seq<Slot>, handles: multiset<Handle>, i: nat)
    requires Agrees(t, handles) && i < |t| && t[i].obj.fs != 0 && t[i].ctr < WRITING - 1
    ensures Agrees(t[i := t[i].(ctr := t[i].ctr + 1)], handles + multiset{Handle(i + 1, t[i].obj, false)})
  {
    var h := Handle(i + 1, t[i].obj, false);
    assert SlotHolds(handles, i, t[i]);
    forall j | 0 <= j < |t| && j != i ensures SlotHolds(handles + multiset{h}, j, t[j]) {
      OtherSlots(handles, h, j, t[j]);
    }
  }

  /** Closing a handle: its slot counts one less and is freed with the last one. */
  lemma Closed(t: seq<Slot>, handles: multiset<Handle>, i: nat, h: Handle) returns (s: Slot)
    requires Agrees(t, handles) && i < |t| && h in handles && h.lockid == i + 1
    ensures t[i].obj == h.obj && h.obj.fs != 0
    ensures t[i].ctr > 0 && s.ctr == if t[i].ctr == WRITING then 0 else t[i].ctr - 1
    ensures s.obj == if s.ctr == 0 then h.obj.(fs := 0) else h.obj
    ensures Agrees(t[i := s], handles - multiset{h})
  {
    assert SlotHolds(handles, i, t[i]);
    var n := if t[i].ctr == WRITING then 0 else t[i].ctr - 1;
    s := Slot(if n == 0 then h.obj.(fs := 0) else h.obj, n);
    var rest := handles - multiset{h};
    forall j | 0 <= j < |t| && j != i ensures SlotHolds(rest, j, t[j]) {
      OtherSlots(handles, h, j, t[j]);
    }
    OwnSlot(t, handles, i, h, n);
    hide SlotHolds;
  }

  lemma OwnSlot(t: seq<Slot>, handles: multiset<Handle>, i: nat, h: Handle, n: nat)
    requires Agrees(t, handles) && i < |t| && h in handles && h.lockid == i + 1 && t[i].obj.fs != 0
    requires n == if t[i].ctr == WRITING then 0 else t[i].ctr - 1
    ensures SlotHolds(handles - multiset{h}, i, Slot(if n == 0 then h.obj.(fs := 0) else h.obj, n))
  {
    assert SlotHolds(handles, i, t[i]);
    if n == 0 { LastHandle(t, handles, i, h); }
  }

  lemma LastHandle(t: seq<Slot>, handles: multiset<Handle>, i: nat, h: Handle)
    requires Agrees(t, handles) && i < |t| && h in handles && h.lockid == i + 1 && (t[i].ctr == WRITING || t[i].ctr == 1)
    ensures forall k :: k in handles - multiset{h} ==> k.lockid != i + 1
  {
    assert SlotHolds(handles, i, t[i]);
    var rest, r, w := handles - multiset{h}, Handle(i + 1, t[i].obj, false), Handle(i + 1, t[i].obj, true);
    assert h == r || h == w;
    assert r !in rest && w !in rest;
    forall k | k in rest ensures k.lockid != i + 1 {
      assert k in handles;
      assert k.lockid == i + 1 ==> k == r || k == w;
    }
  }

  ghost function OnOtherVolumes(handles: multiset<Handle>, fs: nat): (r: multiset<Handle>)
    ensures forall h :: r[h] == if h.obj.fs == fs then 0 else handles[h]
    decreases |handles|
  {
    if handles == multiset{} then multiset{}
    else
      var h :| h in handles;
      var rest := OnOtherVolumes(handles - multiset{h}, fs);
      if h.obj.fs == fs then rest else rest + multiset{h}
  }

  lemma Cleared(t: seq<Slot>, u: seq<Slot>, handles: multiset<Handle>, fs: nat)
    requires Agrees(t, handles) && |t| == |u| && fs != 0
    requires forall j :: 0 <= j < |t| ==> u[j] == if t[j].obj.fs == fs then t[j].(obj := t[j].obj.(fs := 0)) else t[j]
    ensures Agrees(u, OnOtherVolumes(handles, fs))
  {
    ClearedDistinct(t, u, fs);
    hide DistinctSlots;
    var rest := OnOtherVolumes(handles, fs);
    forall j | 0 <= j < |u| ensures SlotHolds(rest, j, u[j]) {
      assert SlotHolds(handles, j, t[j]);
      if t[j].obj.fs == fs { NoneLeft(t, handles, j, fs); } else { SlotStays(handles, j, t[j], fs); }
    }
    hide SlotHolds, OnOtherVolumes;
    forall h | h in rest ensures 1 <= h.lockid <= |u| && h.obj.fs != 0 && u[h.lockid - 1].obj == h.obj {
      assert h in handles;
    }
  }

  lemma ClearedDistinct(t: seq<Slot>, u: seq<Slot>, fs: nat)
    requires DistinctSlots(t) && |t| == |u|
    requires forall j :: 0 <= j < |t| ==> u[j] == if t[j].obj.fs == fs then t[j].(obj := t[j].obj.(fs := 0)) else t[j]
    ensures DistinctSlots(u)
  {
    forall i, j | 0 <= i < |u| && 0 <= j < |u| && u[i].obj.fs != 0 && u[i].obj == u[j].obj ensures i == j {
      assert u[i] == t[i] && u[j] == t[j];
    }
  }

  lemma NoneLeft(t: seq<Slot>, handles: multiset<Handle>, j: nat, fs: nat)
    requires Agrees(t, handles) && j < |t| && t[j].obj.fs == fs
    ensures forall h :: h in OnOtherVolumes(handles, fs) ==> h.lockid != j + 1
  {
    hide OnOtherVolumes;
    forall h | h in OnOtherVolumes(handles, fs) ensures h.lockid != j + 1 {
      assert h in handles && h.obj.fs != fs;
      assert 1 <= h.lockid <= |t| && t[h.lockid - 1].obj == h.obj;
    }
  }

  lemma SlotStays(handles: multiset<Handle>, j: nat, s: Slot, fs: nat)
    requires SlotHolds(handles, j, s) && s.obj.fs != fs
    ensures SlotHolds(OnOtherVolumes(handles, fs), j, s)
  {
    var rest := OnOtherVolumes(handles, fs);
    assert forall h :: h in rest ==> h in handles;
  }

  /** The bound is needed: the 256th reader turns the counter into the mark for write mode,
      and from then on the table no longer agrees with the open handles. */
  lemma ReaderLimit(t: seq<Slot>, handles: multiset<Handle>, i: nat)
    requires Agrees(t, handles) && i < |t| && t[i].obj.fs != 0 && t[i].ctr != WRITING
    ensures Agrees(t[i := t[i].(ctr := t[i].ctr + 1)], handles + multiset{Handle(i + 1, t[i].obj, false)}) <==> t[i].ctr != 255
  {
    assert SlotHolds(handles, i, t[i]);
    var u, more := t[i := t[i].(ctr := t[i].ctr + 1)], handles + multiset{Handle(i + 1, t[i].obj, false)};
    if t[i].ctr == 255 {
      assert !SlotHolds(more, i, u[i]);
    } else {
      Counted(t, handles, i);
    }
  }
}
