/** Opening and closing objects through the lock table: what `f_open` and `f_close` do with
    it, and whole runs of them. */
module LockRuns {
  import opened Locks
  import opened Window

  // ----- capacity

  ghost function OpenObjects(handles: multiset<Handle>): set<Obj>
  {
    set h | h in handles :: h.obj
  }

  ghost function UsedObjects(t: seq<Slot>): set<Obj>
  {
    set i | 0 <= i < |t| && t[i].obj.fs != 0 :: t[i].obj
  }

  function Blanks(t: seq<Slot>): nat
  {
    if t == [] then 0 else Blanks(t[..|t| - 1]) + (if t[|t| - 1].obj.fs == 0 then 1 else 0)
  }

  lemma {:induction false} BlanksFound(t: seq<Slot>)
    ensures Blanks(t) > 0 <==> HasBlank(t)
  {
    if t != [] {
      var u, last := t[..|t| - 1], t[|t| - 1];
      BlanksFound(u);
      if HasBlank(u) {
        var i :| 0 <= i < |u| && u[i].obj.fs == 0;
        assert t[i].obj.fs == 0;
      }
      if HasBlank(t) && last.obj.fs != 0 {
        var i :| 0 <= i < |t| && t[i].obj.fs == 0;
        assert u[i].obj.fs == 0;
      }
    }
  }

  lemma {:induction false} BlanksCounted(t: seq<Slot>)
    requires DistinctSlots(t)
    ensures |UsedObjects(t)| + Blanks(t) == |t|
  {
    if t != [] {
      var u, last := t[..|t| - 1], t[|t| - 1];
      BlanksCounted(u);
      UsedSplit(t);
      if last.obj.fs != 0 { NewObject(t); }
    }
  }

  lemma UsedSplit(t: seq<Slot>)
    requires t != []
    ensures UsedObjects(t) == UsedObjects(t[..|t| - 1]) + (if t[|t| - 1].obj.fs == 0 then {} else {t[|t| - 1].obj})
  {
    var u := t[..|t| - 1];
    forall o | o in UsedObjects(t) ensures o in UsedObjects(u) + (if t[|t| - 1].obj.fs == 0 then {} else {t[|t| - 1].obj}) {
      var i :| 0 <= i < |t| && t[i].obj.fs != 0 && t[i].obj == o;
      if i < |u| { assert u[i].obj == o; }
    }
  }

  lemma NewObject(t: seq<Slot>)
    requires DistinctSlots(t) && t != [] && t[|t| - 1].obj.fs != 0
    ensures t[|t| - 1].obj !in UsedObjects(t[..|t| - 1])
  {
    var u := t[..|t| - 1];
    forall i | 0 <= i < |u| && u[i].obj.fs != 0 ensures u[i].obj != t[|t| - 1].obj { assert t[i].obj != t[|t| - 1].obj; }
  }

  /** A slot is left exactly while fewer objects than slots are open. */
  lemma Capacity(t: seq<Slot>, handles: multiset<Handle>)
    requires Agrees(t, handles)
    ensures HasBlank(t) <==> |OpenObjects(handles)| < |t|
  {
    BlanksCounted(t);
    BlanksFound(t);
    assert OpenObjects(handles) == UsedObjects(t) by {
      forall i | 0 <= i < |t| && t[i].obj.fs != 0 ensures t[i].obj in OpenObjects(handles) {
        SlotOpen(t, handles, i);
      }
    }
  }

  // ----- safety

  /** A handle that may write is alone on its object. */
  ghost predicate Exclusive(handles: multiset<Handle>)
  {
    forall h, k :: h in handles && k in handles && h.obj == k.obj && h.write ==> k == h && handles[h] == 1
  }

  /** The table never lets a writer share its object, and names each open object in exactly
      one slot, in write mode exactly when it is open for writing. */
  lemma TableIsSafe(t: seq<Slot>, handles: multiset<Handle>)
    requires Agrees(t, handles)
    ensures Exclusive(handles)
    ensures forall h :: h in handles ==> exists i :: 0 <= i < |t| && t[i].obj == h.obj && (h.write <==> t[i].ctr == WRITING)
  {
    forall h, k | h in handles && k in handles && h.obj == k.obj && h.write ensures k == h && handles[h] == 1 {
      var i, j := h.lockid - 1, k.lockid - 1;
      assert t[i].obj == t[j].obj;
      assert i == j;
      assert SlotHolds(handles, i, t[i]);
    }
    forall h | h in handles ensures exists i :: 0 <= i < |t| && t[i].obj == h.obj && (h.write <==> t[i].ctr == WRITING) {
      assert SlotHolds(handles, h.lockid - 1, t[h.lockid - 1]);
      assert t[h.lockid - 1].obj == h.obj;
    }
  }

  // ----- opening and closing

  /** `f_open` on an existing object: chk_lock, then inc_lock. */
  method OpenExisting(t: LockTable, obj: Obj, write: bool) returns (res: FResult, h: Handle)
    requires t.Valid() && obj.fs != 0
    modifies t`handles, t.files
    ensures t.Valid() <==> res != Ok || write || old(Countable(t.files[..], obj))
    ensures res == Ok || res == Locked || res == TooManyOpenFiles
    ensures res == Locked <==> old(IsOpen(t.handles, obj)) && (write || old(OpenForWrite(t.handles, obj)))
    ensures res == TooManyOpenFiles <==> !old(IsOpen(t.handles, obj)) && |OpenObjects(old(t.handles))| >= t.files.Length
    ensures res == Ok ==> h.obj == obj && h.write == write && t.handles == old(t.handles) + multiset{h}
    ensures res != Ok ==> t.handles == old(t.handles) && t.files[..] == old(t.files[..])
  {
    Capacity(t.files[..], t.handles);
    h := Handle(0, obj, write);
    res := t.ChkLock(obj, if write then 1 else 0);
    if res != Ok { return; }
    var lockid := t.IncLock(obj, write);
    h := Handle(lockid, obj, write);
    if lockid == 0 { return IntErr, h; }
  }

  /** `f_open` creating an object: enq_lock, then inc_lock for the new entry. */
  method OpenCreated(t: LockTable, obj: Obj) returns (res: FResult, h: Handle)
    requires t.Valid() && obj.fs != 0 && !IsOpen(t.handles, obj)
    modifies t`handles, t.files
    ensures t.Valid()
    ensures res == if |OpenObjects(old(t.handles))| < t.files.Length then Ok else TooManyOpenFiles
    ensures res == Ok ==> h.obj == obj && h.write && t.handles == old(t.handles) + multiset{h}
    ensures res != Ok ==> t.handles == old(t.handles)
  {
    Capacity(t.files[..], t.handles);
    h := Handle(0, obj, true);
    var free := t.EnqLock();
    if !free { return TooManyOpenFiles, h; }
    var lockid := t.IncLock(obj, true);
    h := Handle(lockid, obj, true);
    res := if lockid == 0 then IntErr else Ok;
  }

  // ----- runs

  datatype LockOp = Open(obj: Obj, write: bool) | Create(obj: Obj) | Close(k: nat) | Unmount(fs: nat)

  /** What a run answers: a result, or that the caller did not make the call. */
  datatype Answer = Answer(res: FResult) | NotCalled

  function Readers(hs: seq<Handle>, obj: Obj): nat
  {
    if hs == [] then 0 else Readers(hs[1..], obj) + (if hs[0].obj == obj then 1 else 0)
  }

  lemma {:induction false} ReadersBound(hs: seq<Handle>, h: Handle)
    ensures multiset(hs)[h] <= Readers(hs, h.obj)
  {
    if hs != [] {
      assert hs == [hs[0]] + hs[1..];
      ReadersBound(hs[1..], h);
    }
  }

  lemma FewReaders(t: seq<Slot>, hs: seq<Handle>, obj: Obj)
    requires Agrees(t, multiset(hs)) && Readers(hs, obj) < 255 && obj.fs != 0
    ensures Countable(t, obj)
  {
    forall i | 0 <= i < |t| && t[i].obj == obj ensures t[i].ctr != WRITING - 1 {
      assert SlotHolds(multiset(hs), i, t[i]);
      ReadersBound(hs, Handle(i + 1, obj, false));
    }
  }

  lemma NoneOpen(hs: seq<Handle>, obj: Obj)
    requires Readers(hs, obj) == 0
    ensures !IsOpen(multiset(hs), obj)
  {
    forall h | h in multiset(hs) ensures h.obj != obj { ReadersBound(hs, h); }
  }

  function Without(hs: seq<Handle>, k: nat): seq<Handle>
    requires k < |hs|
  {
    hs[..k] + hs[k + 1..]
  }

  lemma WithoutOne(hs: seq<Handle>, k: nat)
    requires k < |hs|
    ensures multiset(Without(hs, k)) == multiset(hs) - multiset{hs[k]}
  {
    assert hs == hs[..k] + [hs[k]] + hs[k + 1..];
  }

  function Elsewhere(hs: seq<Handle>, fs: nat): seq<Handle>
  {
    if hs == [] then []
    else
      (if hs[0].obj.fs == fs then [] else [hs[0]]) + Elsewhere(hs[1..], fs)
  }

  lemma {:induction false} ElsewhereIs(hs: seq<Handle>, fs: nat)
    ensures multiset(Elsewhere(hs, fs)) == OnOtherVolumes(multiset(hs), fs)
  {
    forall h: Handle ensures multiset(Elsewhere(hs, fs))[h] == if h.obj.fs == fs then 0 else multiset(hs)[h] {
      ElsewhereAt(hs, fs, h);
    }
    assert forall h: Handle :: multiset(Elsewhere(hs, fs))[h] == OnOtherVolumes(multiset(hs), fs)[h];
  }

  lemma {:induction false} ElsewhereAt(hs: seq<Handle>, fs: nat, h: Handle)
    ensures multiset(Elsewhere(hs, fs))[h] == if h.obj.fs == fs then 0 else multiset(hs)[h]
  {
    if hs != [] {
      ElsewhereAt(hs[1..], fs, h);
      assert hs == [hs[0]] + hs[1..];
    }
  }

  /** The abstract readers-writer lock: what an operation must answer and do, given the open
      handles and the number of slots. */
  ghost predicate Allowed(n: nat, hs: seq<Handle>, op: LockOp, ans: Answer, hs': seq<Handle>)
  {
    match op
    case Open(obj, write) =>
      if Readers(hs, obj) >= 255 || obj.fs == 0 then ans == NotCalled && hs' == hs
      else if IsOpen(multiset(hs), obj) && (write || OpenForWrite(multiset(hs), obj)) then ans == Answer(Locked) && hs' == hs
      else if !IsOpen(multiset(hs), obj) && |OpenObjects(multiset(hs))| >= n then ans == Answer(TooManyOpenFiles) && hs' == hs
      else
        ans == Answer(Ok) && |hs'| == |hs| + 1 && hs' == hs + [hs'[|hs|]] && hs'[|hs|].obj == obj && hs'[|hs|].write == write
    case Create(obj) =>
      if Readers(hs, obj) > 0 || obj.fs == 0 then ans == NotCalled && hs' == hs
      else if |OpenObjects(multiset(hs))| >= n then ans == Answer(TooManyOpenFiles) && hs' == hs
      else
        ans == Answer(Ok) && |hs'| == |hs| + 1 && hs' == hs + [hs'[|hs|]] && hs'[|hs|].obj == obj && hs'[|hs|].write
    case Close(k) =>
      if k < |hs| then ans == Answer(Ok) && hs' == Without(hs, k) else ans == NotCalled && hs' == hs
    case Unmount(fs) =>
      if fs != 0 then ans == Answer(Ok) && hs' == Elsewhere(hs, fs) else ans == NotCalled && hs' == hs
  }

  method RunOp(t: LockTable, hs: seq<Handle>, op: LockOp) returns (ans: Answer, hs': seq<Handle>)
    requires t.Valid() && t.handles == multiset(hs)
    modifies t`handles, t.files
    ensures t.Valid() && t.handles == multiset(hs')
    ensures Allowed(t.files.Length, hs, op, ans, hs')
  {
    hide Agrees;
    ans, hs' := NotCalled, hs;
    match op {
      case Open(_, _) => ans, hs' := RunNew(t, hs, op);
      case Create(_) => ans, hs' := RunNew(t, hs, op);
      case Close(k) =>
        if k >= |hs| { return; }
        HandleKnown(t.files[..], hs, k);
        var res := t.DecLock(hs[k].lockid, hs[k]);
        ans := Answer(res);
        WithoutOne(hs, k);
        hs' := Without(hs, k);
      case Unmount(fs) =>
        if fs == 0 { return; }
        t.ClearLock(fs);
        ElsewhereIs(hs, fs);
        ans, hs' := Answer(Ok), Elsewhere(hs, fs);
    }
  }

  method RunNew(t: LockTable, hs: seq<Handle>, op: LockOp) returns (ans: Answer, hs': seq<Handle>)
    requires t.Valid() && t.handles == multiset(hs) && (op.Open? || op.Create?)
    modifies t`handles, t.files
    ensures t.Valid() && t.handles == multiset(hs')
    ensures Allowed(t.files.Length, hs, op, ans, hs')
  {
    hide Agrees, OpenObjects, Countable, OpenForWrite;
    ans, hs' := NotCalled, hs;
    if op.obj.fs == 0 { return; }
    var res, h;
    if op.Open? {
      if Readers(hs, op.obj) >= 255 { return; }
      FewReaders(t.files[..], hs, op.obj);
      res, h := OpenExisting(t, op.obj, op.write);
    } else {
      if Readers(hs, op.obj) > 0 { return; }
      NoneOpen(hs, op.obj);
      res, h := OpenCreated(t, op.obj);
    }
    ans := Answer(res);
    if res == Ok { hs' := hs + [h]; }
  }

  lemma HandleKnown(t: seq<Slot>, hs: seq<Handle>, k: nat)
    requires Agrees(t, multiset(hs)) && k < |hs|
    ensures hs[k] in multiset(hs) && 1 <= hs[k].lockid <= |t|
  {
  }

  /** Every run of opens, creations, closes and unmounts, with at most 255 readers of an object at a
      time, answers as a readers-writer lock with that many slots, and a writer is always
      alone. states[i] are the open handles before operation i. */
  method RunLocks(t: LockTable, ops: seq<LockOp>) returns (answers: seq<Answer>, ghost states: seq<seq<Handle>>)
    requires t.Valid() && t.handles == multiset{}
    modifies t`handles, t.files
    ensures t.Valid() && |answers| == |ops| && |states| == |ops| + 1 && states[0] == []
    ensures t.handles == multiset(states[|ops|])
    ensures forall i :: 0 <= i < |ops| ==> Allowed(t.files.Length, states[i], ops[i], answers[i], states[i + 1])
    ensures forall i :: 0 <= i <= |ops| ==> Exclusive(multiset(states[i]))
  {
    hide Agrees, Allowed, Exclusive;
    var hs := [];
    answers, states := [], [hs];
    TableIsSafe(t.files[..], t.handles);
    for i := 0 to |ops|
      invariant t.Valid() && t.handles == multiset(hs)
      invariant |answers| == i && |states| == i + 1 && states[0] == [] && states[i] == hs
      invariant forall j :: 0 <= j < i ==> Allowed(t.files.Length, states[j], ops[j], answers[j], states[j + 1])
      invariant forall j :: 0 <= j <= i ==> Exclusive(multiset(states[j]))
    {
      var ans;
      ans, hs := RunOp(t, hs, ops[i]);
      TableIsSafe(t.files[..], t.handles);
      answers, states := answers + [ans], states + [hs];
    }
  }
}
