/** The same for intrusive handles: every operation comes to its end in a bounded number of its own steps. */
module CowIntrusiveProgress {
  import opened CowReference
  import opened CowRuns
  import opened CowIntrusive
  import opened CowProgress

  function AsRef(r: IRef): Ref {
    Ref(r.obj, r.obj, r.phase)
  }

  /** As for COWReference, but the last handle deletes one thing only. */
  function IRemaining(phase: Phase): nat {
    if phase.LastOut? then 1 else Remaining(phase)
  }

  // ----- single steps --------------------------------------------------------------------

  predicate ISameKind(a: IOp, b: IOp) {
    || (a.IEndClone? && b.IEndClone?)
    || (a.IDec? && b.IDec?)
    || (a.IIncBack? && b.IIncBack?)
    || (a.IDeleteCopy? && b.IDeleteCopy?)
    || (a.IAdopt? && b.IAdopt?)
    || (a.IDelete? && b.IDelete?)
  }

  /** In the middle of an operation a handle has just one kind of step to take. */
  lemma IOneWayOn(i: IState, h: Handle)
    requires h in i.refs && IRemaining(i.refs[h].phase) > 0 && !i.refs[h].phase.CellGone?
    ensures exists op :: IEnabled(i, op) && op.h == h
    ensures forall a, b :: IEnabled(i, a) && IEnabled(i, b) && a.h == h && b.h == h ==> ISameKind(a, b)
  {
    var tmp := Fresh(i.objs.Keys);
    var op := match i.refs[h].phase
              case Cloning => IEndClone(h, tmp)
              case Cloned(_) => IDec(h)
              case Alone(_) => IIncBack(h)
              case Discarding(_) => IDeleteCopy(h)
              case Left(_) => IAdopt(h)
              case _ => IDelete(h);
    assert IEnabled(i, op);
  }

  lemma IOwnStepAdvances(i: IState, op: IOp)
    requires IEnabled(i, op) && ISafe(i, op) && op.h in i.refs && IRemaining(i.refs[op.h].phase) > 0
    ensures op.h in IStep(i, op).refs
    ensures var phase, phase' := i.refs[op.h].phase, IStep(i, op).refs[op.h].phase;
            IRemaining(phase') < IRemaining(phase) && !phase'.Idle? && Goal(phase') == Goal(phase)
  {
  }

  lemma IOthersLeaveIt(i: IState, op: IOp, h: Handle)
    requires IEnabled(i, op) && ISafe(i, op) && h in i.refs && !i.refs[h].phase.Idle? && op.h != h
    ensures h in IStep(i, op).refs && IStep(i, op).refs[h] == i.refs[h]
  {
  }

  /** Another handle is on the object. */
  ghost predicate IShared(i: IState, h: Handle)
    requires h in i.refs
  {
    exists g :: g in i.refs && g != h && i.refs[g].phase.UsesCell() && i.refs[g].obj == i.refs[h].obj
  }

  lemma SharedInSplit(i: IState, h: Handle)
    requires h in i.refs && i.refs[h].obj != NULL
    ensures h in Split(i).refs && (Shared(Split(i), h) <==> IShared(i, h))
  {
    var s := Split(i);
    if Shared(s, h) {
      var g :| g in s.refs && g != h && HoldsCell(s.refs[g], s.refs[h].cell);
      assert i.refs[g].phase.UsesCell() && i.refs[g].obj == i.refs[h].obj;
    }
    if IShared(i, h) {
      var g :| g in i.refs && g != h && i.refs[g].phase.UsesCell() && i.refs[g].obj == i.refs[h].obj;
      assert HoldsCell(s.refs[g], s.refs[h].cell);
    }
  }

  lemma ICountIsShared(i: IState, h: Handle)
    requires IInv(i) && h in i.refs && i.refs[h].obj != NULL && i.refs[h].phase.Counted()
    ensures i.refs[h].obj in i.objs && (i.objs[i.refs[h].obj].useCount == 1 <==> !IShared(i, h))
  {
    HandleFacts(i, h);
    CountIsShared(Split(i), h);
    SharedInSplit(i, h);
  }

  lemma IPhaseAfter(i: IState, op: IOp)
    requires IEnabled(i, op) && ISafe(i, op) && (op.h in i.refs ==> IRemaining(i.refs[op.h].phase) == 0)
    ensures op.h in IStep(i, op).refs
    ensures IStep(i, op).refs[op.h].phase ==
            match op
            case ITest(h) => if i.objs[i.refs[h].obj].useCount == 1 then Writing else Cloning
            case IRelease(h) =>
              if i.refs[h].obj != NULL && i.objs[i.refs[h].obj].useCount == 1 then LastOut else Gone
            case IWrite(_, _) => Writing
            case _ => Idle
    ensures op.ISwap? ==> IInPhase(IStep(i, op), op.other, Idle)
  {
  }

  /** The write lock goes on for a handle that is shared, and is granted to one that is not; the destructor goes
      on for the last handle; every other operation is complete in one step. */
  lemma IWhatStarts(i: IState, op: IOp)
    requires IInv(i) && IEnabled(i, op) && (op.h in i.refs ==> IRemaining(i.refs[op.h].phase) == 0)
    ensures ISafe(i, op) && op.h in IStep(i, op).refs
    ensures IStep(i, op).refs[op.h].phase ==
            match op
            case ITest(h) => if IShared(i, h) then Cloning else Writing
            case IRelease(h) => if i.refs[h].obj == NULL || IShared(i, h) then Gone else LastOut
            case IWrite(_, _) => Writing
            case _ => Idle
    ensures op.ISwap? ==> IInPhase(IStep(i, op), op.other, Idle)
  {
    IStepKeepsInv(i, op);
    IPhaseAfter(i, op);
    if (op.ITest? || op.IRelease?) && i.refs[op.h].obj != NULL {
      ICountIsShared(i, op.h);
    }
  }

  // ----- runs ----------------------------------------------------------------------------

  function IOwnSteps(ops: seq<IOp>, h: Handle): nat {
    if ops == [] then 0 else (if ops[0].h == h then 1 else 0) + IOwnSteps(ops[1..], h)
  }

  /** Every time h looks at the count, another handle is on its object. */
  ghost predicate IAlwaysShared(i: IState, ops: seq<IOp>, h: Handle)
    requires IIsRun(i, ops) && IAllSafe(i, ops)
    decreases |ops|
  {
    ops == [] ||
    (&& (ops[0] == ITest(h) || ops[0] == IDec(h) ==> IShared(i, h))
     && IAlwaysShared(IStep(i, ops[0]), ops[1..], h))
  }

  ghost predicate IDone(i: IState, ops: seq<IOp>, h: Handle)
    requires h in i.refs
  {
    && IIsRun(i, ops) && IAllSafe(i, ops) && IInPhase(IFinal(i, ops), h, Goal(i.refs[h].phase))
    && IOwnSteps(ops, h) <= IRemaining(i.refs[h].phase)
  }

  ghost predicate IEnds(i: IState, ops: seq<IOp>, h: Handle)
    requires h in i.refs && IDone(i, ops, h)
  {
    EndsOn(AsRef(i.refs[h]), IFinal(i, ops).refs[h].obj, IAlwaysShared(i, ops, h))
  }

  lemma IRunFirst(i: IState, op: IOp, ops: seq<IOp>, h: Handle)
    requires IEnabled(i, op) && ISafe(i, op) && IIsRun(IStep(i, op), ops) && IAllSafe(IStep(i, op), ops)
    ensures IIsRun(i, [op] + ops) && IAllSafe(i, [op] + ops)
    ensures IOwnSteps([op] + ops, h) == (if op.h == h then 1 else 0) + IOwnSteps(ops, h)
    ensures IFinal(i, [op] + ops) == IFinal(IStep(i, op), ops)
    ensures IAlwaysShared(i, [op] + ops, h) <==>
            (op == ITest(h) || op == IDec(h) ==> IShared(i, h)) && IAlwaysShared(IStep(i, op), ops, h)
  {
    var all := [op] + ops;
    assert all[0] == op && all[1..] == ops;
  }

  lemma IDoneFirst(i: IState, op: IOp, ops: seq<IOp>, h: Handle)
    requires IEnabled(i, op) && ISafe(i, op) && h in i.refs && IRemaining(i.refs[h].phase) > 0
    requires h in IStep(i, op).refs && IDone(IStep(i, op), ops, h)
    ensures IDone(i, [op] + ops, h)
  {
    IRunFirst(i, op, ops, h);
    if op.h == h {
      IOwnStepAdvances(i, op);
    } else {
      IOthersLeaveIt(i, op, h);
    }
  }

  lemma IMidWrite(i: IState, h: Handle)
    requires IInv(i) && h in i.refs && i.refs[h].phase.MidWrite()
    ensures i.refs[h].obj != NULL
    ensures i.refs[h].phase.Cloned? ==> i.refs[h].phase.tmp != i.refs[h].obj
  {
    if i.refs[h].obj != NULL {
      assert Split(i).refs[h] == AsRef(i.refs[h]);
      assert RefOk(Split(i), Split(i).refs[h]);
    }
  }

  lemma IOwnStepLeads(i: IState, op: IOp)
    requires IInv(i) && IEnabled(i, op) && ISafe(i, op) && op.h in i.refs && IRemaining(i.refs[op.h].phase) > 0
    requires !Destroyed(i.refs[op.h].phase)
    ensures op.h in IStep(i, op).refs
    ensures Leads(AsRef(i.refs[op.h]), AsRef(IStep(i, op).refs[op.h]), IShared(i, op.h))
    ensures op.IDec? <==> i.refs[op.h].phase.Cloned?
    ensures !op.ITest?
  {
    IMidWrite(i, op.h);
    if op.IDec? {
      ICountIsShared(i, op.h);
    }
  }

  lemma IEndsFirst(i: IState, op: IOp, ops: seq<IOp>, h: Handle)
    requires IInv(i) && IEnabled(i, op) && ISafe(i, op) && h in i.refs && IRemaining(i.refs[h].phase) > 0
    requires !Destroyed(i.refs[h].phase) && h in IStep(i, op).refs && IDone(IStep(i, op), ops, h)
    requires IEnds(IStep(i, op), ops, h) && IDone(i, [op] + ops, h)
    ensures IEnds(i, [op] + ops, h)
  {
    var i' := IStep(i, op);
    var obj := IFinal(i', ops).refs[h].obj;
    IRunFirst(i, op, ops, h);
    if op.h == h {
      IOwnStepLeads(i, op);
      LeadsToEnd(AsRef(i.refs[h]), AsRef(i'.refs[h]), obj, op.IDec?, IShared(i, h), IAlwaysShared(i', ops, h));
    } else {
      IOthersLeaveIt(i, op, h);
    }
  }

  lemma INothingLeft(i: IState, ops: seq<IOp>, h: Handle)
    requires ops == [] && h in i.refs && !i.refs[h].phase.Idle? && IRemaining(i.refs[h].phase) == 0
    ensures ICompletes(i, ops, h)
  {
  }

  lemma IAdvance(i: IState, op: IOp, h: Handle) returns (i': IState)
    requires IInv(i) && IEnabled(i, op) && h in i.refs && IRemaining(i.refs[h].phase) > 0
    ensures ISafe(i, op) && i' == IStep(i, op) && IInv(i') && h in i'.refs && !i'.refs[h].phase.Idle?
    ensures Destroyed(i'.refs[h].phase) == Destroyed(i.refs[h].phase)
    ensures IRemaining(i'.refs[h].phase) + (if op.h == h then 1 else 0) <= IRemaining(i.refs[h].phase)
  {
    IStepKeepsInv(i, op);
    i' := IStep(i, op);
    if op.h == h {
      IOwnStepAdvances(i, op);
    } else {
      IOthersLeaveIt(i, op, h);
    }
  }

  lemma IPrefix(ops: seq<IOp>, op: IOp, k: nat)
    requires ops != [] && ops[0] == op && k < |ops|
    ensures [op] + ops[1..][..k] == ops[..k + 1]
  {
  }

  /** What h was doing is done. */
  ghost predicate ICompletes(i: IState, ops: seq<IOp>, h: Handle)
    requires h in i.refs
  {
    IDone(i, ops, h) && (!Destroyed(i.refs[h].phase) ==> IEnds(i, ops, h))
  }

  lemma ICompletesFirst(i: IState, op: IOp, i': IState, ops: seq<IOp>, h: Handle)
    requires IInv(i) && IEnabled(i, op) && ISafe(i, op) && i' == IStep(i, op)
    requires h in i.refs && IRemaining(i.refs[h].phase) > 0 && h in i'.refs
    requires Destroyed(i'.refs[h].phase) == Destroyed(i.refs[h].phase) && ICompletes(i', ops, h)
    ensures ICompletes(i, [op] + ops, h)
  {
    IDoneFirst(i, op, ops, h);
    if !Destroyed(i.refs[h].phase) {
      IEndsFirst(i, op, ops, h);
    }
  }

  lemma IFirstOf(ops: seq<IOp>, h: Handle) returns (op: IOp)
    requires IOwnSteps(ops, h) > 0
    ensures ops != [] && op == ops[0]
  {
    op := ops[0];
  }

  lemma IRestOfRun(i: IState, op: IOp, ops: seq<IOp>, h: Handle)
    requires IIsRun(i, ops) && ops != [] && ops[0] == op && ISafe(i, op)
    ensures IIsRun(IStep(i, op), ops[1..])
    ensures IOwnSteps(ops, h) == (if op.h == h then 1 else 0) + IOwnSteps(ops[1..], h)
  {
  }

  /** A run with enough steps of a handle completes what the handle was doing. */
  lemma {:induction false} IOperationEnds(i: IState, ops: seq<IOp>, h: Handle) returns (k: nat)
    requires IInv(i) && IIsRun(i, ops) && h in i.refs && !i.refs[h].phase.Idle?
    requires IOwnSteps(ops, h) >= IRemaining(i.refs[h].phase)
    ensures k <= |ops| && ICompletes(i, ops[..k], h)
    decreases |ops|
  {
    if IRemaining(i.refs[h].phase) == 0 {
      INothingLeft(i, ops[..0], h);
      k := 0;
    } else {
      var op := IFirstOf(ops, h);
      var i' := IAdvance(i, op, h);
      IRestOfRun(i, op, ops, h);
      var rest := IOperationEnds(i', ops[1..], h);
      ICompletesFirst(i, op, i', ops[1..][..rest], h);
      IPrefix(ops, op, rest);
      k := rest + 1;
    }
  }

  // ----- whole operations ----------------------------------------------------------------

  /** The write lock and the destructor take fewer steps of their own for a handle that shares with none. */
  ghost function IStepsOf(i: IState, op: IOp): nat
    requires op.h in i.refs
  {
    if op.ITest? then if IShared(i, op.h) then 5 else 1
    else if i.refs[op.h].obj == NULL || IShared(i, op.h) then 1
    else 2
  }

  /** These steps give h write access, in no more steps of its own; it ends on another object than it started on
      exactly if both looks at the count found it shared. */
  ghost predicate IGivesAccess(i: IState, ops: seq<IOp>, h: Handle)
    requires h in i.refs
  {
    && IIsRun(i, ops) && IAllSafe(i, ops) && IInPhase(IFinal(i, ops), h, Writing)
    && IOwnSteps(ops, h) <= IStepsOf(i, ITest(h))
    && (IFinal(i, ops).refs[h].obj != i.refs[h].obj <==> IAlwaysShared(i, ops, h))
  }

  ghost predicate IDestroys(i: IState, ops: seq<IOp>, h: Handle)
    requires h in i.refs
  {
    && IIsRun(i, ops) && IAllSafe(i, ops) && IInPhase(IFinal(i, ops), h, Gone)
    && IOwnSteps(ops, h) <= IStepsOf(i, IRelease(h))
  }

  /** The phase after the first step of the write lock or of the destructor. */
  function IStartedIn(op: IOp, shared: bool): Phase {
    if op.ITest? then if shared then Cloning else Writing
    else if shared then Gone
    else LastOut
  }

  /** A null handle is released as if it were shared. */
  ghost predicate IStays(i: IState, h: Handle)
    requires h in i.refs
  {
    i.refs[h].obj == NULL || IShared(i, h)
  }

  lemma IStartedSteps(i: IState, op: IOp)
    requires op.h in i.refs && (op.IRelease? || (op.ITest? && i.refs[op.h].obj != NULL))
    ensures 1 + IRemaining(IStartedIn(op, IStays(i, op.h))) == IStepsOf(i, op)
    ensures Destroyed(IStartedIn(op, IStays(i, op.h))) <==> op.IRelease?
  {
  }

  lemma IStartedPhase(i: IState, op: IOp)
    requires IInv(i) && IEnabled(i, op) && (op.ITest? || op.IRelease?)
    ensures ISafe(i, op) && op.h in IStep(i, op).refs
    ensures IStep(i, op).refs[op.h] == IRef(i.refs[op.h].obj, IStartedIn(op, IStays(i, op.h)))
  {
    IWhatStarts(i, op);
  }

  lemma IRest(i: IState, ops: seq<IOp>, h: Handle)
    requires IIsRun(i, ops) && ops != [] && ISafe(i, ops[0]) && ops[0].h == h
    ensures IIsRun(IStep(i, ops[0]), ops[1..]) && IOwnSteps(ops[1..], h) == IOwnSteps(ops, h) - 1
  {
  }

  lemma IStartedEnds(i: IState, op: IOp, ops: seq<IOp>) returns (i': IState, k: nat, done: seq<IOp>)
    requires IInv(i) && IIsRun(i, ops) && ops != [] && ops[0] == op && (op.ITest? || op.IRelease?)
    requires op.h in i.refs && IOwnSteps(ops, op.h) >= IStepsOf(i, op)
    ensures k <= |ops| && ops[..k] == [op] + done
    ensures ISafe(i, op) && i' == IStep(i, op) && op.h in i'.refs && IDone(i', done, op.h)
    ensures i'.refs[op.h] == IRef(i.refs[op.h].obj, IStartedIn(op, IStays(i, op.h)))
    ensures op.ITest? ==> IEnds(i', done, op.h)
  {
    IStepKeepsInv(i, op);
    IStartedPhase(i, op);
    IStartedSteps(i, op);
    i' := IStep(i, op);
    IRest(i, ops, op.h);
    var others := ops[1..];
    var rest := IOperationEnds(i', others, op.h);
    done := others[..rest];
    IPrefix(ops, op, rest);
    k := rest + 1;
  }

  lemma IAccessAfterTest(i: IState, op: IOp, i': IState, ops: seq<IOp>)
    requires IEnabled(i, op) && ISafe(i, op) && op.ITest? && i' == IStep(i, op) && op.h in i'.refs
    requires i'.refs[op.h] == IRef(i.refs[op.h].obj, IStartedIn(op, IStays(i, op.h)))
    requires IDone(i', ops, op.h) && IEnds(i', ops, op.h)
    ensures IGivesAccess(i, [op] + ops, op.h)
  {
    IRunFirst(i, op, ops, op.h);
  }

  lemma IGoneAfterRelease(i: IState, op: IOp, i': IState, ops: seq<IOp>)
    requires IEnabled(i, op) && ISafe(i, op) && op.IRelease? && i' == IStep(i, op) && op.h in i'.refs
    requires i'.refs[op.h] == IRef(i.refs[op.h].obj, IStartedIn(op, IStays(i, op.h))) && IDone(i', ops, op.h)
    ensures IDestroys(i, [op] + ops, op.h)
  {
    IRunFirst(i, op, ops, op.h);
  }

  /** The write lock is granted, whatever other handles do in between. */
  lemma IWriteLockIsGranted(i: IState, ops: seq<IOp>, h: Handle) returns (k: nat)
    requires IInv(i) && IIsRun(i, ops) && ops != [] && ops[0] == ITest(h)
    requires h in i.refs && IOwnSteps(ops, h) >= IStepsOf(i, ITest(h))
    ensures k <= |ops| && IGivesAccess(i, ops[..k], h)
  {
    var i', done;
    i', k, done := IStartedEnds(i, ops[0], ops);
    IAccessAfterTest(i, ops[0], i', done);
  }

  /** The destructor ends. */
  lemma IDestructorEnds(i: IState, ops: seq<IOp>, h: Handle) returns (k: nat)
    requires IInv(i) && IIsRun(i, ops) && ops != [] && ops[0] == IRelease(h)
    requires h in i.refs && IOwnSteps(ops, h) >= IStepsOf(i, IRelease(h))
    ensures k <= |ops| && IDestroys(i, ops[..k], h)
  {
    var i', done;
    i', k, done := IStartedEnds(i, ops[0], ops);
    IGoneAfterRelease(i, ops[0], i', done);
  }
}
