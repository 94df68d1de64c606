/** The intrusive variant, in which the count lives inside the object and a clone starts with a
    count of zero. Splitting every object into a cell and a value turns each of its steps into
    steps of COWReference, so everything proved of those runs holds of these. */
module CowIntrusive {
  import opened CowReference
  import opened CowRuns

  datatype Counted = Counted(useCount: nat, value: Value)

  datatype IRef = IRef(obj: Addr, phase: Phase)

  datatype IState = IState(objs: map<Addr, Counted>, refs: map<Handle, IRef>)

  const I_INIT := IState(map[], map[])

  datatype IOp =
    | INew(h: Handle, obj: Addr, value: Value)  // a fresh object, or none when obj is NULL
    | ICopy(h: Handle, from: Handle)
    | ISwap(h: Handle, other: Handle)
    | IRelease(h: Handle)                       // the destructor's decAndTest
    | IDelete(h: Handle)
    | ITest(h: Handle)                          // getWriteLock: COWIntrusiveReferenceUnique
    | IEndClone(h: Handle, tmp: Addr)           // COWIntrusiveReferenceClone, step by step
    | IDec(h: Handle)
    | IIncBack(h: Handle)
    | IDeleteCopy(h: Handle)
    | IAdopt(h: Handle)
    | IWrite(h: Handle, value: Value)
    | IEndWrite(h: Handle)

  predicate IInPhase(i: IState, h: Handle, phase: Phase) {
    h in i.refs && i.refs[h].phase == phase
  }

  predicate IEnabled(i: IState, op: IOp) {
    match op
    case INew(h, obj, _) => h !in i.refs && obj !in i.objs
    case ICopy(h, from) => h !in i.refs && IInPhase(i, from, Idle)
    case ISwap(h, other) => IInPhase(i, h, Idle) && IInPhase(i, other, Idle)
    case IRelease(h) => IInPhase(i, h, Idle)
    case IDelete(h) => IInPhase(i, h, LastOut)
    case ITest(h) => IInPhase(i, h, Idle) && i.refs[h].obj != NULL
    case IEndClone(h, tmp) => IInPhase(i, h, Cloning) && tmp !in i.objs && tmp != NULL
    case IDec(h) => h in i.refs && i.refs[h].phase.Cloned?
    case IIncBack(h) => h in i.refs && i.refs[h].phase.Alone?
    case IDeleteCopy(h) => h in i.refs && i.refs[h].phase.Discarding?
    case IAdopt(h) => h in i.refs && i.refs[h].phase.Left?
    case IWrite(h, _) => IInPhase(i, h, Writing)
    case IEndWrite(h) => IInPhase(i, h, Writing)
  }

  function IGoto(i: IState, h: Handle, phase: Phase): map<Handle, IRef>
    requires h in i.refs
  {
    i.refs[h := i.refs[h].(phase := phase)]
  }

  function Recount(i: IState, obj: Addr, useCount: nat): map<Addr, Counted>
    requires obj in i.objs
  {
    i.objs[obj := i.objs[obj].(useCount := useCount)]
  }

  predicate IHolds(r: IRef, obj: Addr) {
    (r.phase.UsesObj() && r.obj == obj) || (r.phase.HasCopy() && r.phase.tmp == obj)
  }

  /** No other handle's thread may still touch this object, as its own or as a private copy. */
  ghost predicate IUnshared(i: IState, h: Handle, obj: Addr) {
    forall g :: g in i.refs && g != h ==> !IHolds(i.refs[g], obj)
  }

  /** As for COWReference: live memory and positive counts, and what is deleted or written is within no
      other handle's reach. */
  ghost predicate ISafe(i: IState, op: IOp)
    requires IEnabled(i, op)
  {
    match op
    case INew(_, _, _) => true
    case ICopy(_, from) => i.refs[from].obj != NULL ==> i.refs[from].obj in i.objs
    case ISwap(_, _) => true
    case IRelease(h) => i.refs[h].obj != NULL ==> i.refs[h].obj in i.objs && i.objs[i.refs[h].obj].useCount > 0
    case IDelete(h) => i.refs[h].obj in i.objs && IUnshared(i, h, i.refs[h].obj)
    case ITest(h) => i.refs[h].obj in i.objs
    case IEndClone(h, _) => i.refs[h].obj in i.objs
    case IDec(h) => i.refs[h].obj in i.objs && i.objs[i.refs[h].obj].useCount > 0
    case IIncBack(h) => i.refs[h].obj in i.objs
    case IDeleteCopy(h) => i.refs[h].phase.tmp in i.objs && IUnshared(i, h, i.refs[h].phase.tmp)
    case IAdopt(h) => i.refs[h].phase.tmp in i.objs
    case IWrite(h, _) =>
      i.refs[h].obj in i.objs && i.objs[i.refs[h].obj].useCount == 1 && IUnshared(i, h, i.refs[h].obj)
    case IEndWrite(_) => true
  }

  function IStep(i: IState, op: IOp): IState
    requires IEnabled(i, op) && ISafe(i, op)
  {
    match op
    case INew(h, obj, value) =>
      IState(if obj == NULL then i.objs else i.objs[obj := Counted(1, value)], i.refs[h := IRef(obj, Idle)])
    case ICopy(h, from) =>
      var obj := i.refs[from].obj;
      IState(if obj == NULL then i.objs else Recount(i, obj, i.objs[obj].useCount + 1), i.refs[h := i.refs[from]])
    case ISwap(h, other) =>
      i.(refs := i.refs[h := i.refs[other]][other := i.refs[h]])
    case IRelease(h) =>
      var obj := i.refs[h].obj;
      if obj == NULL then i.(refs := IGoto(i, h, Gone))
      else IState(Recount(i, obj, i.objs[obj].useCount - 1),
                  IGoto(i, h, if i.objs[obj].useCount == 1 then LastOut else Gone))
    case IDelete(h) =>
      IState(i.objs - {i.refs[h].obj}, IGoto(i, h, Gone))
    case ITest(h) =>
      i.(refs := IGoto(i, h, if i.objs[i.refs[h].obj].useCount == 1 then Writing else Cloning))
    case IEndClone(h, tmp) =>
      IState(i.objs[tmp := Counted(0, i.objs[i.refs[h].obj].value)], IGoto(i, h, Cloned(tmp)))
    case IDec(h) =>
      var obj, tmp := i.refs[h].obj, i.refs[h].phase.tmp;
      IState(Recount(i, obj, i.objs[obj].useCount - 1),
             IGoto(i, h, if i.objs[obj].useCount == 1 then Alone(tmp) else Left(tmp)))
    case IIncBack(h) =>
      var obj := i.refs[h].obj;
      IState(Recount(i, obj, i.objs[obj].useCount + 1), IGoto(i, h, Discarding(i.refs[h].phase.tmp)))
    case IDeleteCopy(h) =>
      IState(i.objs - {i.refs[h].phase.tmp}, IGoto(i, h, Writing))
    case IAdopt(h) =>
      var tmp := i.refs[h].phase.tmp;
      IState(Recount(i, tmp, i.objs[tmp].useCount + 1), i.refs[h := IRef(tmp, Writing)])
    case IWrite(h, value) =>
      var obj := i.refs[h].obj;
      i.(objs := i.objs[obj := i.objs[obj].(value := value)])
    case IEndWrite(h) =>
      i.(refs := IGoto(i, h, Idle))
  }

  // ----- splitting objects into cells and values -----------------------------------------

  ghost predicate IsCopy(i: IState, obj: Addr) {
    exists h :: h in i.refs && i.refs[h].phase.HasCopy() && i.refs[h].phase.tmp == obj
  }

  /** A null handle has no count and nothing to release. */
  function SplitRef(r: IRef): Ref {
    if r.obj == NULL then Ref(NULL, NULL, Gone) else Ref(r.obj, r.obj, r.phase)
  }

  /** A private copy has no cell yet. */
  ghost function Split(i: IState): State {
    State(map o | o in i.objs && !IsCopy(i, o) :: i.objs[o].useCount,
          map o | o in i.objs :: i.objs[o].value,
          map h | h in i.refs :: SplitRef(i.refs[h]))
  }

  ghost predicate NullsIdle(i: IState) {
    forall h :: h in i.refs && i.refs[h].obj == NULL ==> i.refs[h].phase.Idle? || i.refs[h].phase.Gone?
  }

  predicate CopyUncounted(i: IState, tmp: Addr) {
    tmp in i.objs && i.objs[tmp].useCount == 0
  }

  ghost predicate IInv(i: IState) {
    && Inv(Split(i))
    && (forall h :: h in i.refs && i.refs[h].phase.HasCopy() ==> CopyUncounted(i, i.refs[h].phase.tmp))
    && NullsIdle(i)
  }

  // ----- every step is safe and keeps the invariant --------------------------------------

  lemma AddGoneKeepsInv(s: State, h: Handle)
    requires Inv(s) && h !in s.refs
    ensures Inv(s.(refs := s.refs[h := Ref(NULL, NULL, Gone)]))
  {
    var s' := s.(refs := s.refs[h := Ref(NULL, NULL, Gone)]);
    OthersKept(s, s', h, s'.refs[h]);
    CountsUpdate(s, s', h, s'.refs[h]);
    HeldUpdate(s, s', h, s'.refs[h]);
  }

  /** What the invariant says about one handle and its object. */
  lemma HandleFacts(i: IState, h: Handle)
    requires IInv(i) && h in i.refs && i.refs[h].obj != NULL
    ensures i.refs[h].phase.UsesCell() ==>
              i.refs[h].obj in i.objs && !IsCopy(i, i.refs[h].obj) &&
              Split(i).cells[i.refs[h].obj] == i.objs[i.refs[h].obj].useCount
    ensures i.refs[h].phase.HasCopy() ==> i.refs[h].phase.tmp in i.objs && IsCopy(i, i.refs[h].phase.tmp)
  {
    assert Split(i).refs[h] == SplitRef(i.refs[h]);
    assert RefOk(Split(i), Split(i).refs[h]);
  }

  /** A step that moves no private copy leaves the same objects without a cell. */
  lemma SameCopies(i: IState, i': IState, h: Handle)
    requires h in i'.refs && i'.refs == i.refs[h := i'.refs[h]]
    requires var was := h in i.refs && i.refs[h].phase.HasCopy();
             i'.refs[h].phase.HasCopy() == was && (was ==> i'.refs[h].phase.tmp == i.refs[h].phase.tmp)
    ensures forall o :: IsCopy(i', o) <==> IsCopy(i, o)
  {
    forall o ensures IsCopy(i', o) <==> IsCopy(i, o) {
      if g :| g in i.refs && i.refs[g].phase.HasCopy() && i.refs[g].phase.tmp == o {
        assert i'.refs[g].phase.HasCopy() && i'.refs[g].phase.tmp == o;
      }
    }
  }

  /** The use count of a shared object lives in the object; nothing else about it may change. */
  lemma RecountSplits(i: IState, i': IState, obj: Addr, h: Handle, phase: Phase)
    requires h in i.refs && i.refs[h].obj == obj && obj != NULL && obj in i.objs && !IsCopy(i, obj)
    requires obj in i'.objs && i' == IState(Recount(i, obj, i'.objs[obj].useCount), IGoto(i, h, phase))
    requires forall o :: IsCopy(i', o) <==> IsCopy(i, o)
    ensures Split(i') == State(Split(i).cells[obj := i'.objs[obj].useCount], Split(i).objs, Goto(Split(i), h, phase))
  {
    var s, s' := Split(i), Split(i');
    assert s'.cells == s.cells[obj := i'.objs[obj].useCount];
    assert s'.objs == s.objs;
    assert s'.refs == Goto(s, h, phase);
  }

  lemma ReleaseSplits(i: IState, h: Handle)
    requires IEnabled(i, IRelease(h)) && i.refs[h].obj != NULL && ISafe(i, IRelease(h)) && !IsCopy(i, i.refs[h].obj)
    ensures CanDec(Split(i), h) && Split(IStep(i, IRelease(h))) == DropDec(Split(i), h)
  {
    var i' := IStep(i, IRelease(h));
    SameCopies(i, i', h);
    RecountSplits(i, i', i.refs[h].obj, h, i'.refs[h].phase);
  }

  lemma PositiveUse(i: IState, h: Handle)
    requires IInv(i) && h in i.refs && i.refs[h].obj != NULL && i.refs[h].phase.Counted()
    ensures i.refs[h].obj in i.objs && !IsCopy(i, i.refs[h].obj) && i.objs[i.refs[h].obj].useCount > 0
  {
    HandleFacts(i, h);
    CountTellsOthers(Split(i), h);
  }

  lemma ReleaseKeepsInv(i: IState, h: Handle)
    requires IInv(i) && IEnabled(i, IRelease(h)) && i.refs[h].obj != NULL
    ensures ISafe(i, IRelease(h)) && Inv(Split(IStep(i, IRelease(h))))
  {
    PositiveUse(i, h);
    ReleaseSplits(i, h);
    StepKeepsInv(Split(i), DropDecOp(h));
  }

  /** Making or copying a null handle counts nothing. */
  lemma NullSplits(i: IState, op: IOp)
    requires IEnabled(i, op) && ISafe(i, op)
    requires (op.INew? && op.obj == NULL) || (op.ICopy? && i.refs[op.from].obj == NULL)
    ensures Split(IStep(i, op)) == Split(i).(refs := Split(i).refs[op.h := Ref(NULL, NULL, Gone)])
  {
    SameCopies(i, IStep(i, op), op.h);
    assert Split(IStep(i, op)).cells == Split(i).cells;
  }

  lemma NewSplits(i: IState, h: Handle, obj: Addr, value: Value)
    requires IEnabled(i, INew(h, obj, value)) && obj != NULL && !IsCopy(i, obj)
    ensures Split(IStep(i, INew(h, obj, value))) == New(Split(i), h, obj, obj, value)
  {
    var i' := IStep(i, INew(h, obj, value));
    SameCopies(i, i', h);
    assert Split(i').cells == Split(i).cells[obj := 1];
  }

  lemma CopySplits(i: IState, h: Handle, from: Handle)
    requires IEnabled(i, ICopy(h, from)) && i.refs[from].obj != NULL
    requires i.refs[from].obj in i.objs && !IsCopy(i, i.refs[from].obj)
    ensures Split(IStep(i, ICopy(h, from))) == Copy(Split(i), h, from)
  {
    var i' := IStep(i, ICopy(h, from));
    SameCopies(i, i', h);
    assert Split(i').cells == Inc(Split(i).cells, i.refs[from].obj);
    assert Split(i').objs == Split(i).objs;
  }

  lemma TestSplits(i: IState, op: IOp)
    requires IEnabled(i, op) && ISafe(i, op) && (op.ITest? || op.IEndWrite? || op.IWrite?)
    requires i.refs[op.h].obj != NULL && i.refs[op.h].obj in i.objs
    requires !IsCopy(i, i.refs[op.h].obj) && i.objs[i.refs[op.h].obj].useCount > 0
    ensures var s, s' := Split(i), Split(IStep(i, op));
            && (op.ITest? ==> s' == Test(s, op.h))
            && (op.IEndWrite? ==> s' == EndWrite(s, op.h))
            && (op.IWrite? && !BeingCloned(s, s.refs[op.h].obj) ==> s' == Write(s, op.h, op.value))
  {
    var i' := IStep(i, op);
    SameCopies(i, i', op.h);
    assert Split(i').cells == Split(i).cells;
  }

  lemma CountedCopySplits(i: IState, op: IOp)
    requires IEnabled(i, op) && ISafe(i, op) && (op.IDec? || op.IIncBack?)
    requires i.refs[op.h].obj != NULL && !IsCopy(i, i.refs[op.h].obj)
    ensures var s, s' := Split(i), Split(IStep(i, op));
            if op.IDec? then CanDec(s, op.h) && s' == Dec(s, op.h) else s' == IncBack(s, op.h)
  {
    var i' := IStep(i, op);
    SameCopies(i, i', op.h);
    RecountSplits(i, i', i.refs[op.h].obj, op.h, i'.refs[op.h].phase);
  }

  lemma DeleteSplits(i: IState, h: Handle)
    requires IEnabled(i, IDelete(h)) && ISafe(i, IDelete(h))
    requires i.refs[h].obj != NULL && !IsCopy(i, i.refs[h].obj)
    ensures Split(IStep(i, IDelete(h))) == DeleteObj(DeleteCell(Split(i), h), h)
  {
    var i' := IStep(i, IDelete(h));
    SameCopies(i, i', h);
    assert Split(i').cells == Split(i).cells - {i.refs[h].obj};
    assert Split(i').objs == Split(i).objs - {i.refs[h].obj};
    assert Split(i').refs == Goto(DeleteCell(Split(i), h), h, Gone);
  }

  lemma EndCloneSplits(i: IState, h: Handle, tmp: Addr)
    requires IEnabled(i, IEndClone(h, tmp)) && ISafe(i, IEndClone(h, tmp)) && i.refs[h].obj != NULL
    ensures Split(IStep(i, IEndClone(h, tmp))) == EndClone(Split(i), h, tmp)
  {
    var i' := IStep(i, IEndClone(h, tmp));
    forall o | o != tmp ensures IsCopy(i', o) <==> IsCopy(i, o) {
      if g :| g in i.refs && i.refs[g].phase.HasCopy() && i.refs[g].phase.tmp == o {
        assert i'.refs[g] == i.refs[g];
      }
    }
    assert IsCopy(i', tmp) by { assert i'.refs[h].phase.tmp == tmp; }
    assert Split(i').cells == Split(i).cells;
  }

  /** The copy stops being private: deleted, or adopted as the handle's own object. */
  lemma CopyEnds(i: IState, op: IOp)
    requires IEnabled(i, op) && ISafe(i, op) && (op.IDeleteCopy? || op.IAdopt?)
    requires forall g :: g in i.refs && g != op.h && i.refs[g].phase.HasCopy() ==>
               i.refs[g].phase.tmp != i.refs[op.h].phase.tmp
    ensures forall o :: IsCopy(IStep(i, op), o) <==> IsCopy(i, o) && o != i.refs[op.h].phase.tmp
    ensures IsCopy(i, i.refs[op.h].phase.tmp)
  {
    var i', tmp := IStep(i, op), i.refs[op.h].phase.tmp;
    forall o | o != tmp ensures IsCopy(i', o) <==> IsCopy(i, o) {
      if g :| g in i.refs && i.refs[g].phase.HasCopy() && i.refs[g].phase.tmp == o {
        assert i'.refs[g] == i.refs[g];
      }
    }
  }

  lemma DeleteCopySplits(i: IState, h: Handle)
    requires IEnabled(i, IDeleteCopy(h)) && ISafe(i, IDeleteCopy(h)) && i.refs[h].obj != NULL
    requires forall g :: g in i.refs && g != h && i.refs[g].phase.HasCopy() ==>
               i.refs[g].phase.tmp != i.refs[h].phase.tmp
    ensures Split(IStep(i, IDeleteCopy(h))) == DeleteCopy(Split(i), h)
  {
    CopyEnds(i, IDeleteCopy(h));
    assert Split(IStep(i, IDeleteCopy(h))).cells == Split(i).cells;
  }

  lemma AdoptSplits(i: IState, h: Handle)
    requires IEnabled(i, IAdopt(h)) && ISafe(i, IAdopt(h)) && i.refs[h].obj != NULL
    requires i.refs[h].phase.tmp != NULL && i.objs[i.refs[h].phase.tmp].useCount == 0
    requires forall g :: g in i.refs && g != h && i.refs[g].phase.HasCopy() ==>
               i.refs[g].phase.tmp != i.refs[h].phase.tmp
    ensures Split(IStep(i, IAdopt(h))) == Replace(Split(i), h, i.refs[h].phase.tmp)
  {
    CopyEnds(i, IAdopt(h));
    assert Split(IStep(i, IAdopt(h))).cells == Split(i).cells[i.refs[h].phase.tmp := 1];
  }

  lemma SwapSplits(i: IState, h: Handle, g: Handle)
    requires h in i.refs && g in i.refs && i.refs[h].phase.Idle? && i.refs[g].phase.Idle?
    ensures Split(IStep(i, ISwap(h, g))) == Swap(Split(i), h, g)
  {
    var i' := IStep(i, ISwap(h, g));
    forall o ensures IsCopy(i', o) <==> IsCopy(i, o) {
      if x :| x in i.refs && i.refs[x].phase.HasCopy() && i.refs[x].phase.tmp == o {
        assert i'.refs[x] == i.refs[x];
      }
    }
    assert Split(i').cells == Split(i).cells;
    assert Split(i').refs == Swap(Split(i), h, g).refs;
  }

  lemma NewOrCopyKeepsInv(i: IState, op: IOp)
    requires IInv(i) && IEnabled(i, op) && (op.INew? || op.ICopy?)
    ensures ISafe(i, op) && Inv(Split(IStep(i, op)))
  {
    var s := Split(i);
    if op.ICopy? && i.refs[op.from].obj != NULL {
      PositiveUse(i, op.from);
      CopySplits(i, op.h, op.from);
      CopyKeepsInv(s, op.h, op.from);
    } else if op.INew? && op.obj != NULL {
      CopiesAreLive(i);
      NewSplits(i, op.h, op.obj, op.value);
      NewKeepsInv(s, op.h, op.obj, op.obj, op.value);
    } else {
      NullSplits(i, op);
      AddGoneKeepsInv(s, op.h);
    }
  }

  lemma CopiesAreLive(i: IState)
    requires IInv(i)
    ensures forall o :: IsCopy(i, o) ==> o in i.objs && o != NULL
  {
    forall o | IsCopy(i, o) ensures o in i.objs && o != NULL {
      var h :| h in i.refs && i.refs[h].phase.HasCopy() && i.refs[h].phase.tmp == o;
      HandleFacts(i, h);
    }
  }

  lemma CopyUnique(i: IState, h: Handle)
    requires IInv(i) && h in i.refs && i.refs[h].phase.HasCopy()
    ensures forall g :: g in i.refs && g != h && i.refs[g].phase.HasCopy() ==> i.refs[g].phase.tmp != i.refs[h].phase.tmp
  {
    forall g | g in i.refs && g != h && i.refs[g].phase.HasCopy() ensures i.refs[g].phase.tmp != i.refs[h].phase.tmp {
      assert Compatible(Split(i).refs[h], Split(i).refs[g]);
    }
  }

  lemma UnsharedWhenSplit(i: IState, h: Handle, obj: Addr)
    requires NullsIdle(i) && obj != NULL && ObjUnshared(Split(i), h, obj)
    ensures IUnshared(i, h, obj)
  {
    forall g | g in i.refs && g != h ensures !IHolds(i.refs[g], obj) {
      assert g in Split(i).refs && !HoldsObj(Split(i).refs[g], obj);
    }
  }

  /** A handle that must be alone on its object is, and a private copy is private. */
  lemma SoleHandleIsUnshared(i: IState, h: Handle)
    requires IInv(i) && h in i.refs && i.refs[h].obj != NULL
    ensures i.refs[h].phase.Writing? || i.refs[h].phase.LastOut? ==> IUnshared(i, h, i.refs[h].obj)
    ensures i.refs[h].phase.HasCopy() ==> IUnshared(i, h, i.refs[h].phase.tmp)
  {
    CopiesAreLive(i);
    HandleFacts(i, h);
    OwnObjUnshared(Split(i), h);
    if i.refs[h].phase.HasCopy() {
      UnsharedWhenSplit(i, h, i.refs[h].phase.tmp);
    }
    if i.refs[h].phase.Writing? || i.refs[h].phase.LastOut? {
      SoleObjUnshared(Split(i), h);
      UnsharedWhenSplit(i, h, i.refs[h].obj);
    }
  }

  lemma WriterCountsOne(i: IState, h: Handle)
    requires IInv(i) && IInPhase(i, h, Writing) && i.refs[h].obj != NULL
    ensures i.refs[h].obj in i.objs && i.objs[i.refs[h].obj].useCount == 1
  {
    HandleFacts(i, h);
    WriterIsSole(Split(i), h);
  }

  lemma SharedStepKeepsInv(i: IState, op: IOp)
    requires IInv(i) && IEnabled(i, op) && (op.ITest? || op.IDec? || op.IIncBack?)
    ensures ISafe(i, op) && Inv(Split(IStep(i, op)))
  {
    var s := Split(i);
    HandleFacts(i, op.h);
    match op
    case ITest(h) => PositiveUse(i, h); TestSplits(i, op); StepKeepsInv(s, TestOp(h));
    case IDec(h) => PositiveUse(i, h); CountedCopySplits(i, op); StepKeepsInv(s, DecOp(h));
    case IIncBack(h) => CountedCopySplits(i, op); StepKeepsInv(s, IncBackOp(h));
  }

  lemma CopyStepKeepsInv(i: IState, op: IOp)
    requires IInv(i) && IEnabled(i, op) && (op.IEndClone? || op.IDeleteCopy? || op.IAdopt?)
    ensures ISafe(i, op) && Inv(Split(IStep(i, op)))
  {
    var s := Split(i);
    HandleFacts(i, op.h);
    CopiesAreLive(i);
    match op
    case IEndClone(h, tmp) => EndCloneSplits(i, h, tmp); StepKeepsInv(s, EndCloneOp(h, tmp));
    case IDeleteCopy(h) =>
      SoleHandleIsUnshared(i, h);
      CopyUnique(i, h);
      DeleteCopySplits(i, h);
      StepKeepsInv(s, DeleteCopyOp(h));
    case IAdopt(h) => CopyUnique(i, h); AdoptSplits(i, h); StepKeepsInv(s, ReplaceOp(h, i.refs[h].phase.tmp));
  }

  lemma DeleteKeepsInv(i: IState, h: Handle)
    requires IInv(i) && IEnabled(i, IDelete(h))
    ensures ISafe(i, IDelete(h)) && Inv(Split(IStep(i, IDelete(h))))
  {
    var s := Split(i);
    HandleFacts(i, h);
    SoleHandleIsUnshared(i, h);
    DeleteSplits(i, h);
    StepKeepsInv(s, DeleteCellOp(h));
    StepKeepsInv(DeleteCell(s, h), DeleteObjOp(h));
  }

  lemma WriteStepKeepsInv(i: IState, h: Handle, value: Value)
    requires IInv(i) && IEnabled(i, IWrite(h, value))
    ensures ISafe(i, IWrite(h, value)) && Inv(Split(IStep(i, IWrite(h, value))))
  {
    PositiveUse(i, h);
    SoleHandleIsUnshared(i, h);
    WriterCountsOne(i, h);
    TestSplits(i, IWrite(h, value));
    StepKeepsInv(Split(i), WriteOp(h, value));
  }

  lemma OtherStepKeepsInv(i: IState, op: IOp)
    requires IInv(i) && IEnabled(i, op)
    requires op.ISwap? || op.IRelease? || op.IDelete? || op.IWrite? || op.IEndWrite?
    ensures ISafe(i, op) && Inv(Split(IStep(i, op)))
  {
    var s := Split(i);
    match op
    case ISwap(h, g) => SwapSplits(i, h, g); SwapKeepsInv(s, h, g);
    case IRelease(h) => if i.refs[h].obj != NULL { ReleaseKeepsInv(i, h); } else { NullReleaseKeepsInv(i, h); }
    case IDelete(h) => DeleteKeepsInv(i, h);
    case IWrite(h, value) => WriteStepKeepsInv(i, h, value);
    case IEndWrite(h) => PositiveUse(i, h); TestSplits(i, op); StepKeepsInv(s, EndWriteOp(h));
  }

  lemma NullReleaseKeepsInv(i: IState, h: Handle)
    requires IInv(i) && IEnabled(i, IRelease(h)) && i.refs[h].obj == NULL
    ensures Split(IStep(i, IRelease(h))) == Split(i)
  {
    SameCopies(i, IStep(i, IRelease(h)), h);
    assert Split(IStep(i, IRelease(h))).cells == Split(i).cells;
  }

  /** The one object that a step may make, change or delete. */
  function Touched(i: IState, op: IOp): Addr
    requires IEnabled(i, op)
  {
    match op
    case INew(_, obj, _) => obj
    case ICopy(_, from) => i.refs[from].obj
    case IEndClone(_, tmp) => tmp
    case IDeleteCopy(h) => i.refs[h].phase.tmp
    case IAdopt(h) => i.refs[h].phase.tmp
    case _ => i.refs[op.h].obj
  }

  lemma OnlyTouchedChanges(i: IState, op: IOp, o: Addr)
    requires IEnabled(i, op) && ISafe(i, op) && o in i.objs && o != Touched(i, op)
    ensures o in IStep(i, op).objs && IStep(i, op).objs[o] == i.objs[o]
  {
  }

  lemma CopiesWereThere(i: IState, op: IOp, g: Handle)
    requires IEnabled(i, op) && ISafe(i, op) && !(op.IEndClone? && g == op.h)
    requires g in IStep(i, op).refs && IStep(i, op).refs[g].phase.HasCopy()
    ensures g in i.refs && i.refs[g].phase.HasCopy() && i.refs[g].phase.tmp == IStep(i, op).refs[g].phase.tmp
    ensures g == op.h ==> !op.IDeleteCopy? && !op.IAdopt?
  {
  }

  /** Counts move and objects die only where no other thread keeps a private copy. */
  lemma CopiesStayUncounted(i: IState, op: IOp, g: Handle)
    requires IInv(i) && IEnabled(i, op) && ISafe(i, op)
    requires g in IStep(i, op).refs && IStep(i, op).refs[g].phase.HasCopy()
    ensures CopyUncounted(IStep(i, op), IStep(i, op).refs[g].phase.tmp)
  {
    if op.IEndClone? && g == op.h {
      return;
    }
    CopiesWereThere(i, op, g);
    var tmp := i.refs[g].phase.tmp;
    assert IsCopy(i, tmp) && tmp in i.objs;
    CopiesAreLive(i);
    assert tmp != Touched(i, op) by {
      if op.IDeleteCopy? || op.IAdopt? {
        CopyUnique(i, op.h);
      } else if op.ICopy? {
        if i.refs[op.from].obj != NULL {
          HandleFacts(i, op.from);
        }
      } else if !op.INew? && !op.IEndClone? {
        if i.refs[op.h].obj != NULL {
          HandleFacts(i, op.h);
        }
      }
    }
    OnlyTouchedChanges(i, op, tmp);
  }

  lemma NullsStayIdle(i: IState, op: IOp)
    requires IEnabled(i, op) && ISafe(i, op) && NullsIdle(i)
    requires op.IAdopt? ==> i.refs[op.h].phase.tmp != NULL
    ensures NullsIdle(IStep(i, op))
  {
  }

  lemma IStepKeepsInv(i: IState, op: IOp)
    requires IInv(i) && IEnabled(i, op)
    ensures ISafe(i, op) && IInv(IStep(i, op))
  {
    match op {
      case INew(_, _, _) => NewOrCopyKeepsInv(i, op);
      case ICopy(_, _) => NewOrCopyKeepsInv(i, op);
      case ISwap(_, _) => OtherStepKeepsInv(i, op);
      case IRelease(_) => OtherStepKeepsInv(i, op);
      case IDelete(_) => OtherStepKeepsInv(i, op);
      case IWrite(_, _) => OtherStepKeepsInv(i, op);
      case IEndWrite(_) => OtherStepKeepsInv(i, op);
      case ITest(_) => SharedStepKeepsInv(i, op);
      case IDec(_) => SharedStepKeepsInv(i, op);
      case IIncBack(_) => SharedStepKeepsInv(i, op);
      case _ => CopyStepKeepsInv(i, op);
    }
    forall g | g in IStep(i, op).refs && IStep(i, op).refs[g].phase.HasCopy()
      ensures CopyUncounted(IStep(i, op), IStep(i, op).refs[g].phase.tmp)
    {
      CopiesStayUncounted(i, op, g);
    }
    CopiesAreLive(i);
    NullsStayIdle(i, op);
  }

  // ----- whole runs ----------------------------------------------------------------------

  ghost predicate IIsRun(i: IState, ops: seq<IOp>)
    decreases |ops|
  {
    ops == [] || (IEnabled(i, ops[0]) && (ISafe(i, ops[0]) ==> IIsRun(IStep(i, ops[0]), ops[1..])))
  }

  ghost predicate IAllSafe(i: IState, ops: seq<IOp>)
    requires IIsRun(i, ops)
    decreases |ops|
  {
    ops == [] || (ISafe(i, ops[0]) && IAllSafe(IStep(i, ops[0]), ops[1..]))
  }

  ghost function IFinal(i: IState, ops: seq<IOp>): IState
    requires IIsRun(i, ops) && IAllSafe(i, ops)
    decreases |ops|
  {
    if ops == [] then i else IFinal(IStep(i, ops[0]), ops[1..])
  }

  lemma {:induction false} EveryRunIsSafe(i: IState, ops: seq<IOp>)
    requires IInv(i) && IIsRun(i, ops)
    ensures IAllSafe(i, ops) && IInv(IFinal(i, ops))
    decreases |ops|
  {
    if ops != [] {
      IStepKeepsInv(i, ops[0]);
      EveryRunIsSafe(IStep(i, ops[0]), ops[1..]);
    }
  }

  /** The protocol in the intrusive variant's own terms: in every reachable state the count inside
      an object is the number of handles still counted on it, and an object being written has a
      count of one, is written by that handle alone and is being cloned by nobody. */
  lemma CountsAreHandles(ops: seq<IOp>)
    requires IIsRun(I_INIT, ops)
    ensures IAllSafe(I_INIT, ops)
    ensures var i := IFinal(I_INIT, ops);
            && (forall h :: h in i.refs && i.refs[h].obj != NULL && i.refs[h].phase.Counted() ==>
                  i.refs[h].obj in i.objs && i.objs[i.refs[h].obj].useCount == |Users(i, i.refs[h].obj)|)
            && (forall h :: h in i.refs && i.refs[h].phase.Writing? ==> Users(i, i.refs[h].obj) == {h})
  {
    EveryRunIsSafe(I_INIT, ops);
    var i := IFinal(I_INIT, ops);
    forall h | h in i.refs && i.refs[h].obj != NULL && i.refs[h].phase.Counted()
      ensures i.refs[h].obj in i.objs && i.objs[i.refs[h].obj].useCount == |Users(i, i.refs[h].obj)|
      ensures i.refs[h].phase.Writing? ==> Users(i, i.refs[h].obj) == {h}
    {
      HandleFacts(i, h);
      UsersAreCounters(i, i.refs[h].obj);
      if i.refs[h].phase.Writing? {
        WriterIsSole(Split(i), h);
        CountedIsPositive(Split(i), h);
      }
    }
  }

  function Users(i: IState, obj: Addr): set<Handle> {
    set h | h in i.refs && i.refs[h].obj == obj && i.refs[h].phase.Counted()
  }

  lemma UsersAreCounters(i: IState, obj: Addr)
    requires obj != NULL
    ensures Users(i, obj) == Counters(Split(i).refs, obj)
  {
  }

  /** When every handle is destroyed, every object has been deleted. */
  lemma AllGoneAllDeleted(ops: seq<IOp>)
    requires IIsRun(I_INIT, ops)
    ensures IAllSafe(I_INIT, ops)
    ensures (forall h :: h in IFinal(I_INIT, ops).refs ==> IFinal(I_INIT, ops).refs[h].phase.Gone?) ==>
              IFinal(I_INIT, ops).objs == map[]
  {
    EveryRunIsSafe(I_INIT, ops);
    var i := IFinal(I_INIT, ops);
    if forall h :: h in i.refs ==> i.refs[h].phase.Gone? {
      GoneHoldNothing(Split(i));
      assert forall o :: o in i.objs ==> o in Split(i).objs;
    }
  }
}
