/** Intrusive handles, under every interleaving, show what handles that each own their value would. */
module CowIntrusiveValues {
  import opened CowReference
  import opened CowRuns
  import opened CowIntrusive

  /** The object a handle shows; a thread that has left the shared one already shows its copy. */
  function ShownObj(r: IRef): Addr {
    if r.phase.Left? then r.phase.tmp else r.obj
  }

  function IContentOf(i: IState, r: IRef): Content {
    if ShownObj(r) in i.objs then Holds(i.objs[ShownObj(r)].value) else Null
  }

  /** The handle is between its construction and the start of its destruction. */
  predicate IInUse(r: IRef) {
    !r.phase.LastOut? && !r.phase.CellGone? && !r.phase.Gone?
  }

  function IContents(i: IState): map<Handle, Content> {
    map h | h in i.refs && IInUse(i.refs[h]) :: IContentOf(i, i.refs[h])
  }

  /** The same operation on handles that share nothing. */
  function IIndependent(m: map<Handle, Content>, op: IOp): map<Handle, Content> {
    match op
    case INew(h, obj, value) => m[h := if obj == NULL then Null else Holds(value)]
    case ICopy(h, from) => m[h := Get(m, from)]
    case ISwap(h, other) => m[h := Get(m, other)][other := Get(m, h)]
    case IRelease(h) => m - {h}
    case IWrite(h, value) => m[h := Holds(value)]
    case _ => m
  }

  // ----- other handles -------------------------------------------------------------------

  /** Values change or vanish only where ISafe asks that nobody else can reach the object. */
  lemma ValueKept(i: IState, op: IOp, o: Addr)
    requires IEnabled(i, op) && ISafe(i, op) && o in i.objs
    requires (op.IDelete? || op.IDeleteCopy? || op.IWrite?) ==> o != Touched(i, op)
    ensures o in IStep(i, op).objs && IStep(i, op).objs[o].value == i.objs[o].value
  {
  }

  lemma ShownIsLive(i: IState, h: Handle)
    requires IInv(i) && h in i.refs && IInUse(i.refs[h])
    ensures NULL !in i.objs
    ensures ShownObj(i.refs[h]) == NULL || (ShownObj(i.refs[h]) in i.objs && IHolds(i.refs[h], ShownObj(i.refs[h])))
  {
    assert NULL !in Split(i).objs;
    if i.refs[h].obj != NULL {
      HandleFacts(i, h);
    }
  }

  lemma OthersStayPut(i: IState, op: IOp, g: Handle)
    requires IEnabled(i, op) && ISafe(i, op) && !op.ISwap? && g != op.h
    ensures g in IStep(i, op).refs <==> g in i.refs
    ensures g in i.refs ==> IStep(i, op).refs[g] == i.refs[g]
  {
  }

  lemma OtherShowsTheSame(i: IState, op: IOp, g: Handle)
    requires IInv(i) && IEnabled(i, op) && ISafe(i, op) && IInv(IStep(i, op))
    requires !op.ISwap? && g != op.h && g in i.refs && IInUse(i.refs[g])
    ensures IContentOf(IStep(i, op), i.refs[g]) == IContentOf(i, i.refs[g])
  {
    ShownIsLive(i, g);
    var o := ShownObj(i.refs[g]);
    if o == NULL {
      assert NULL !in Split(IStep(i, op)).objs;
    } else {
      ValueKept(i, op, o);
    }
  }

  // ----- the handle that takes the step --------------------------------------------------

  /** What the handle h of the step shows afterwards is what the step would make of a handle by itself. */
  ghost predicate ShowsItsOwn(i: IState, op: IOp)
    requires IEnabled(i, op) && ISafe(i, op)
  {
    var i', m := IStep(i, op), IIndependent(IContents(i), op);
    && op.h in i'.refs
    && (if IInUse(i'.refs[op.h]) then op.h in m && m[op.h] == IContentOf(i', i'.refs[op.h]) else op.h !in m)
  }

  lemma MadeShowsItsOwn(i: IState, op: IOp)
    requires IEnabled(i, op) && ISafe(i, op) && NULL !in i.objs && (op.INew? || op.ICopy?)
    ensures ShowsItsOwn(i, op)
  {
  }

  /** The thread leaves the shared object for a copy that equals it. */
  lemma LeavingShowsTheSame(i: IState, h: Handle)
    requires IInv(i) && IEnabled(i, IDec(h)) && ISafe(i, IDec(h))
    ensures ShowsItsOwn(i, IDec(h))
  {
    HandleFacts(i, h);
    assert RefOk(Split(i), Split(i).refs[h]);
    assert Split(i).objs[i.refs[h].phase.tmp] == Split(i).objs[i.refs[h].obj];
  }

  lemma StillShown(i: IState, op: IOp)
    requires IEnabled(i, op) && ISafe(i, op)
    requires op.ITest? || op.IEndClone? || op.IIncBack? || op.IDeleteCopy? || op.IAdopt?
    requires op.IDeleteCopy? ==> i.refs[op.h].phase.tmp != i.refs[op.h].obj
    ensures var i' := IStep(i, op);
            && op.h in i'.refs && IInUse(i.refs[op.h]) && IInUse(i'.refs[op.h])
            && IContentOf(i', i'.refs[op.h]) == IContentOf(i, i.refs[op.h])
  {
  }

  lemma WriteLockShowsTheSame(i: IState, op: IOp)
    requires IInv(i) && IEnabled(i, op) && ISafe(i, op)
    requires op.ITest? || op.IEndClone? || op.IIncBack? || op.IDeleteCopy? || op.IAdopt?
    ensures ShowsItsOwn(i, op)
  {
    assert op.IDeleteCopy? ==> i.refs[op.h].phase.tmp != i.refs[op.h].obj by {
      assert RefOk(Split(i), Split(i).refs[op.h]);
    }
    StillShown(i, op);
  }

  lemma RestShowsItsOwn(i: IState, op: IOp)
    requires IInv(i) && IEnabled(i, op) && ISafe(i, op)
    requires op.IRelease? || op.IDelete? || op.IWrite? || op.IEndWrite?
    ensures ShowsItsOwn(i, op)
  {
  }

  lemma OwnHandleShowsItsOwn(i: IState, op: IOp)
    requires IInv(i) && IEnabled(i, op) && ISafe(i, op) && !op.ISwap?
    ensures ShowsItsOwn(i, op)
  {
    match op {
      case INew(_, _, _) => assert NULL !in Split(i).objs; MadeShowsItsOwn(i, op);
      case ICopy(_, _) => assert NULL !in Split(i).objs; MadeShowsItsOwn(i, op);
      case IDec(h) => LeavingShowsTheSame(i, h);
      case IRelease(_) => RestShowsItsOwn(i, op);
      case IDelete(_) => RestShowsItsOwn(i, op);
      case IWrite(_, _) => RestShowsItsOwn(i, op);
      case IEndWrite(_) => RestShowsItsOwn(i, op);
      case _ => WriteLockShowsTheSame(i, op);
    }
  }

  // ----- steps and runs ------------------------------------------------------------------

  lemma IndependentSparesOthers(m: map<Handle, Content>, op: IOp, g: Handle)
    requires !op.ISwap? && g != op.h
    ensures g in IIndependent(m, op) <==> g in m
    ensures g in m ==> IIndependent(m, op)[g] == m[g]
  {
  }

  lemma SwapExchanges(i: IState, h: Handle, g: Handle)
    requires IEnabled(i, ISwap(h, g))
    ensures IContents(IStep(i, ISwap(h, g))) == IIndependent(IContents(i), ISwap(h, g))
  {
    var i' := IStep(i, ISwap(h, g));
    forall x
      ensures x in IContents(i') <==> x in IIndependent(IContents(i), ISwap(h, g))
      ensures x in IContents(i') ==> IContents(i')[x] == IIndependent(IContents(i), ISwap(h, g))[x]
    {
    }
  }

  /** An atomic action does to what the handles show what it would do to handles that share nothing. */
  lemma IStepRefines(i: IState, op: IOp)
    requires IInv(i) && IEnabled(i, op)
    ensures ISafe(i, op) && IContents(IStep(i, op)) == IIndependent(IContents(i), op)
  {
    IStepKeepsInv(i, op);
    if op.ISwap? {
      SwapExchanges(i, op.h, op.other);
      return;
    }
    OwnHandleShowsItsOwn(i, op);
    var i', m := IStep(i, op), IIndependent(IContents(i), op);
    forall g
      ensures g in IContents(i') <==> g in m
      ensures g in IContents(i') ==> IContents(i')[g] == m[g]
    {
      if g != op.h {
        OthersStayPut(i, op, g);
        IndependentSparesOthers(IContents(i), op, g);
        if g in i.refs && IInUse(i.refs[g]) {
          OtherShowsTheSame(i, op, g);
        }
      }
    }
  }

  function IndependentRun(m: map<Handle, Content>, ops: seq<IOp>): map<Handle, Content>
    decreases |ops|
  {
    if ops == [] then m else IndependentRun(IIndependent(m, ops[0]), ops[1..])
  }

  /** Over every run each handle shows what it would show if nothing were shared. */
  lemma {:induction false} IRunRefines(i: IState, ops: seq<IOp>)
    requires IInv(i) && IIsRun(i, ops)
    ensures IAllSafe(i, ops) && IContents(IFinal(i, ops)) == IndependentRun(IContents(i), ops)
    decreases |ops|
  {
    if ops != [] {
      IStepRefines(i, ops[0]);
      IStepKeepsInv(i, ops[0]);
      IRunRefines(IStep(i, ops[0]), ops[1..]);
    }
  }
}
