/** Runs of COWReference handles under every interleaving: memory safety, exact release, and
    refinement of handles that each own their value. */
module CowRuns {
  import opened CowReference

  datatype Op =
    | NewOp(h: Handle, cell: Addr, obj: Addr, value: Value)
    | CopyOp(h: Handle, from: Handle)
    | CastToOp(h: Handle, from: Handle, cell: Addr, castOk: bool)
    | SwapOp(h: Handle, other: Handle)
    | DropDecOp(h: Handle)                  // the destructor: up to three steps
    | DeleteCellOp(h: Handle)
    | DeleteObjOp(h: Handle)
    | TestOp(h: Handle)                     // getWriteLock: up to five steps
    | EndCloneOp(h: Handle, tmp: Addr)
    | DecOp(h: Handle)
    | IncBackOp(h: Handle)
    | DeleteCopyOp(h: Handle)
    | ReplaceOp(h: Handle, cell: Addr)
    | WriteOp(h: Handle, value: Value)      // through the pointer getWriteLock returned
    | EndWriteOp(h: Handle)
    | ReadOp(h: Handle)                     // through a const handle

  /** What callers, the one-thread-per-handle rule and the allocator guarantee. Nothing here looks
      at a count. */
  predicate Enabled(s: State, op: Op) {
    match op
    case NewOp(h, cell, obj, _) => h !in s.refs && cell !in s.cells && obj !in s.objs
    case CopyOp(h, from) => h !in s.refs && InPhase(s, from, Idle)
    case CastToOp(h, from, cell, _) => h !in s.refs && InPhase(s, from, Idle) && cell !in s.cells
    case SwapOp(h, other) => InPhase(s, h, Idle) && InPhase(s, other, Idle)
    case DropDecOp(h) => InPhase(s, h, Idle)
    case DeleteCellOp(h) => InPhase(s, h, LastOut)
    case DeleteObjOp(h) => InPhase(s, h, CellGone)
    case TestOp(h) => InPhase(s, h, Idle) && s.refs[h].obj != NULL
    case EndCloneOp(h, tmp) => InPhase(s, h, Cloning) && tmp !in s.objs && tmp != NULL
    case DecOp(h) => h in s.refs && s.refs[h].phase.Cloned?
    case IncBackOp(h) => h in s.refs && s.refs[h].phase.Alone?
    case DeleteCopyOp(h) => h in s.refs && s.refs[h].phase.Discarding?
    case ReplaceOp(h, cell) => h in s.refs && s.refs[h].phase.Left? && cell !in s.cells
    case WriteOp(h, _) => InPhase(s, h, Writing)
    case EndWriteOp(h) => InPhase(s, h, Writing)
    case ReadOp(h) => InPhase(s, h, Idle) && s.refs[h].obj != NULL
  }

  /** No other handle's thread may still touch this object, as its own or as a private copy. */
  ghost predicate ObjUnshared(s: State, h: Handle, obj: Addr) {
    forall g :: g in s.refs && g != h ==> !HoldsObj(s.refs[g], obj)
  }

  /** The step touches live memory only, takes no count below zero, deletes only what is live and
      what no other handle can reach, and writes only an object nobody else reads or clones. */
  ghost predicate Safe(s: State, op: Op)
    requires Enabled(s, op)
  {
    match op
    case NewOp(_, _, _, _) => true
    case CopyOp(_, from) => s.refs[from].cell in s.cells
    case CastToOp(_, from, _, _) => s.refs[from].cell in s.cells
    case SwapOp(_, _) => true
    case DropDecOp(h) => CanDec(s, h)
    case DeleteCellOp(h) => s.refs[h].cell in s.cells && Unshared(s, h)
    case DeleteObjOp(h) =>
      s.refs[h].obj == NULL || (s.refs[h].obj in s.objs && ObjUnshared(s, h, s.refs[h].obj))
    case TestOp(h) => s.refs[h].cell in s.cells
    case EndCloneOp(h, _) => s.refs[h].obj in s.objs
    case DecOp(h) => CanDec(s, h)
    case IncBackOp(h) => s.refs[h].cell in s.cells
    case DeleteCopyOp(h) => s.refs[h].phase.tmp in s.objs && ObjUnshared(s, h, s.refs[h].phase.tmp)
    case ReplaceOp(_, _) => true
    case WriteOp(h, _) =>
      && s.refs[h].obj in s.objs && !BeingCloned(s, s.refs[h].obj)
      && ObjUnshared(s, h, s.refs[h].obj) && s.refs[h].cell in s.cells && s.cells[s.refs[h].cell] == 1
    case EndWriteOp(_) => true
    case ReadOp(h) => s.refs[h].obj in s.objs
  }

  /** cast_to builds a null handle with a cell of its own. If the dynamic_cast succeeds the handle
      takes the pointer, drops that cell, deletes it and joins the other one. */
  function CastTo(s: State, h: Handle, from: Handle, cell: Addr, castOk: bool): State
    requires from in s.refs && s.refs[from].cell in s.cells && h !in s.refs && cell !in s.cells
  {
    var s0 := New(s, h, cell, NULL, []);
    if castOk && s.refs[from].obj != NULL then
      var s1 := s0.(refs := s0.refs[h := Ref(cell, s.refs[from].obj, Idle)]);
      var s2 := DeleteCell(DropDec(s1, h), h);
      Copy(s2, h, from)
    else
      s0
  }

  lemma CastToShares(s: State, h: Handle, from: Handle, cell: Addr, castOk: bool)
    requires from in s.refs && s.refs[from].cell in s.cells && h !in s.refs && cell !in s.cells
    ensures CastTo(s, h, from, cell, castOk) ==
            if castOk && s.refs[from].obj != NULL then Copy(s, h, from) else New(s, h, cell, NULL, [])
  {
    assert s.cells[cell := 1][cell := 0] - {cell} == s.cells;
  }

  function Step(s: State, op: Op): State
    requires Enabled(s, op) && Safe(s, op)
  {
    match op
    case NewOp(h, cell, obj, value) => New(s, h, cell, obj, value)
    case CopyOp(h, from) => Copy(s, h, from)
    case CastToOp(h, from, cell, castOk) => CastTo(s, h, from, cell, castOk)
    case SwapOp(h, other) => Swap(s, h, other)
    case DropDecOp(h) => DropDec(s, h)
    case DeleteCellOp(h) => DeleteCell(s, h)
    case DeleteObjOp(h) => DeleteObj(s, h)
    case TestOp(h) => Test(s, h)
    case EndCloneOp(h, tmp) => EndClone(s, h, tmp)
    case DecOp(h) => Dec(s, h)
    case IncBackOp(h) => IncBack(s, h)
    case DeleteCopyOp(h) => DeleteCopy(s, h)
    case ReplaceOp(h, cell) => Replace(s, h, cell)
    case WriteOp(h, value) => Write(s, h, value)
    case EndWriteOp(h) => EndWrite(s, h)
    case ReadOp(_) => s
  }

  // ----- safety --------------------------------------------------------------------------

  lemma SoleIsUnshared(s: State, h: Handle)
    requires Inv(s) && h in s.refs && s.refs[h].phase.Sole()
    ensures Unshared(s, h)
  {
    forall g | g in s.refs && g != h ensures !HoldsCell(s.refs[g], s.refs[h].cell) {
      assert Compatible(s.refs[h], s.refs[g]);
    }
  }

  lemma OwnObjUnshared(s: State, h: Handle)
    requires Inv(s) && h in s.refs
    ensures s.refs[h].phase.HasCopy() ==> ObjUnshared(s, h, s.refs[h].phase.tmp)
    ensures s.refs[h].obj != NULL && (s.refs[h].phase.CellGone? || s.refs[h].phase.Writing?) ==>
              ObjUnshared(s, h, s.refs[h].obj)
  {
    forall g | g in s.refs && g != h
      ensures s.refs[h].phase.HasCopy() ==> !HoldsObj(s.refs[g], s.refs[h].phase.tmp)
      ensures s.refs[h].obj != NULL && (s.refs[h].phase.CellGone? || s.refs[h].phase.Writing?) ==>
                !HoldsObj(s.refs[g], s.refs[h].obj)
    {
      assert Compatible(s.refs[h], s.refs[g]) && Compatible(s.refs[g], s.refs[h]);
    }
  }

  lemma SoleObjUnshared(s: State, h: Handle)
    requires Inv(s) && h in s.refs && s.refs[h].obj != NULL && s.refs[h].phase.Sole() && s.refs[h].phase.UsesObj()
    ensures ObjUnshared(s, h, s.refs[h].obj)
  {
    forall g | g in s.refs && g != h ensures !HoldsObj(s.refs[g], s.refs[h].obj) {
      assert Compatible(s.refs[h], s.refs[g]) && Compatible(s.refs[g], s.refs[h]);
    }
  }

  /** After getWriteLock, and for as long as its pointer is used, the handle is the only one. */
  lemma WriterIsSole(s: State, h: Handle)
    requires Inv(s) && InPhase(s, h, Writing)
    ensures s.refs[h].cell in s.cells && s.cells[s.refs[h].cell] == 1
    ensures Unshared(s, h) && ObjUnshared(s, h, s.refs[h].obj)
  {
    SoleIsUnshared(s, h);
    OwnObjUnshared(s, h);
    CountTellsOthers(s, h);
  }

  /** Whatever the interleaving so far, every possible next step is safe. */
  lemma EnabledIsSafe(s: State, op: Op)
    requires Inv(s) && Enabled(s, op)
    ensures Safe(s, op)
  {
    match op
    case DropDecOp(h) => CountTellsOthers(s, h);
    case DecOp(h) => CountTellsOthers(s, h);
    case DeleteCellOp(h) => SoleIsUnshared(s, h);
    case DeleteObjOp(h) => OwnObjUnshared(s, h);
    case DeleteCopyOp(h) => OwnObjUnshared(s, h);
    case WriteOp(h, _) => WriterIsSole(s, h); WriteKeepsInv(s, h, []);
    case _ =>
  }

  function Other(h: Handle, a: Handle, b: Handle): Handle {
    if h == a then b else if h == b then a else h
  }

  lemma SwapHeld(s: State, h: Handle, g: Handle)
    requires CellsHeld(s.cells, s.refs) && ObjsHeld(s.objs, s.refs) && h in s.refs && g in s.refs
    ensures CellsHeld(s.cells, Swap(s, h, g).refs) && ObjsHeld(s.objs, Swap(s, h, g).refs)
  {
    var refs' := Swap(s, h, g).refs;
    assert forall x :: x in s.refs ==> Other(x, h, g) in refs' && refs'[Other(x, h, g)] == s.refs[x];
    forall c | c in s.cells ensures exists x :: x in refs' && HoldsCell(refs'[x], c) {
      var x :| x in s.refs && HoldsCell(s.refs[x], c);
      assert HoldsCell(refs'[Other(x, h, g)], c);
    }
    forall o | o in s.objs ensures exists x :: x in refs' && HoldsObj(refs'[x], o) {
      var x :| x in s.refs && HoldsObj(s.refs[x], o);
      assert HoldsObj(refs'[Other(x, h, g)], o);
    }
  }

  lemma SwapCounts(s: State, h: Handle, g: Handle)
    requires CountsExact(s) && h in s.refs && g in s.refs
    ensures CountsExact(Swap(s, h, g))
  {
    forall c | c in s.cells ensures s.cells[c] == |Counters(Swap(s, h, g).refs, c)| {
      CountersUpdate(s.refs, h, s.refs[g], c);
      CountersUpdate(s.refs[h := s.refs[g]], g, s.refs[h], c);
    }
  }

  /** Exchanging two handles only renames them. */
  lemma SwapKeepsInv(s: State, h: Handle, g: Handle)
    requires Inv(s) && h in s.refs && g in s.refs
    ensures Inv(Swap(s, h, g))
  {
    SwapCounts(s, h, g);
    SwapPairwise(s.refs, h, g);
    SwapHeld(s, h, g);
  }

  lemma SwapPairwise(refs: map<Handle, Ref>, h: Handle, g: Handle)
    requires Pairwise(refs) && h in refs && g in refs
    ensures Pairwise(refs[h := refs[g]][g := refs[h]])
  {
    var refs' := refs[h := refs[g]][g := refs[h]];
    forall a, b | a in refs' && b in refs' && a != b ensures Compatible(refs'[a], refs'[b]) {
      assert refs'[a] == refs[Other(a, h, g)] && refs'[b] == refs[Other(b, h, g)];
      assert Compatible(refs[Other(a, h, g)], refs[Other(b, h, g)]);
    }
  }

  lemma StepKeepsInv(s: State, op: Op)
    requires Inv(s) && Enabled(s, op)
    ensures Safe(s, op) && Inv(Step(s, op))
  {
    EnabledIsSafe(s, op);
    match op
    case NewOp(h, cell, obj, value) => NewKeepsInv(s, h, cell, obj, value);
    case CopyOp(h, from) => CopyKeepsInv(s, h, from);
    case CastToOp(h, from, cell, castOk) =>
      CastToShares(s, h, from, cell, castOk);
      CopyKeepsInv(s, h, from);
      NewKeepsInv(s, h, cell, NULL, []);
    case SwapOp(h, other) => SwapKeepsInv(s, h, other);
    case ReplaceOp(h, cell) => ReplaceKeepsInv(s, h, cell);
    case EndCloneOp(h, tmp) => EndCloneKeepsInv(s, h, tmp);
    case WriteOp(h, value) => WriteKeepsInv(s, h, value);
    case ReadOp(h) =>
    case _ => ShrinkingStepKeepsInv(s, op);
  }

  lemma ShrinkingStepKeepsInv(s: State, op: Op)
    requires Inv(s) && Enabled(s, op) && Safe(s, op)
    requires op.TestOp? || op.DropDecOp? || op.DecOp? || op.DeleteCellOp? || op.DeleteObjOp? || op.IncBackOp?
             || op.DeleteCopyOp? || op.EndWriteOp?
    ensures Inv(Step(s, op))
  {
    OwnShrinkStep(s, op);
    ShrinkKeepsInv(s, Step(s, op), op.h);
  }

  lemma OwnShrinkStep(s: State, op: Op)
    requires Inv(s) && Enabled(s, op) && Safe(s, op)
    requires op.TestOp? || op.DropDecOp? || op.DecOp? || op.DeleteCellOp? || op.DeleteObjOp? || op.IncBackOp?
             || op.DeleteCopyOp? || op.EndWriteOp?
    ensures ShrinkStep(s, Step(s, op), op.h)
  {
    match op {
      case TestOp(h) => CountTellsOthers(s, h); TestShrinks(s, h);
      case DropDecOp(h) => CountTellsOthers(s, h); DropDecShrinks(s, h);
      case DecOp(h) => CountTellsOthers(s, h); DecShrinks(s, h);
      case DeleteCellOp(h) => DeletesShrink(s, h);
      case DeleteObjOp(h) => DeletesShrink(s, h);
      case _ => WriteLockEndShrinks(s, op.h);
    }
  }

  // ----- whole runs ----------------------------------------------------------------------

  /** Steps of any handles in any order; a run goes on only while its steps are safe. */
  ghost predicate IsRun(s: State, ops: seq<Op>)
    decreases |ops|
  {
    ops == [] || (Enabled(s, ops[0]) && (Safe(s, ops[0]) ==> IsRun(Step(s, ops[0]), ops[1..])))
  }

  ghost predicate AllSafe(s: State, ops: seq<Op>)
    requires IsRun(s, ops)
    decreases |ops|
  {
    ops == [] || (Safe(s, ops[0]) && AllSafe(Step(s, ops[0]), ops[1..]))
  }

  ghost function Final(s: State, ops: seq<Op>): State
    requires IsRun(s, ops) && AllSafe(s, ops)
    decreases |ops|
  {
    if ops == [] then s else Final(Step(s, ops[0]), ops[1..])
  }

  /** No interleaving ever makes an unsafe step, and every reachable state has exact counts,
      private copies, sole writers and nothing leaked. */
  lemma {:induction false} EveryRunIsSafe(s: State, ops: seq<Op>)
    requires Inv(s) && IsRun(s, ops)
    ensures AllSafe(s, ops) && Inv(Final(s, ops))
    decreases |ops|
  {
    if ops != [] {
      StepKeepsInv(s, ops[0]);
      EveryRunIsSafe(Step(s, ops[0]), ops[1..]);
    }
  }

  ghost predicate AllGone(s: State) {
    forall h :: h in s.refs ==> s.refs[h].phase.Gone?
  }

  lemma GoneHoldNothing(s: State)
    requires CellsHeld(s.cells, s.refs) && ObjsHeld(s.objs, s.refs) && AllGone(s)
    ensures s.cells == map[] && s.objs == map[]
  {
    assert forall c :: c !in s.cells;
    assert forall o :: o !in s.objs;
  }

  /** When every handle is destroyed, every cell and every object has been released. */
  lemma AllGoneAllReleased(ops: seq<Op>)
    requires IsRun(INIT, ops)
    ensures AllSafe(INIT, ops)
    ensures AllGone(Final(INIT, ops)) ==> Final(INIT, ops).cells == map[] && Final(INIT, ops).objs == map[]
  {
    EveryRunIsSafe(INIT, ops);
    if AllGone(Final(INIT, ops)) {
      GoneHoldNothing(Final(INIT, ops));
    }
  }

  // ----- refinement: each handle owns its value ------------------------------------------

  datatype Content = Null | Holds(value: Value)

  /** What a handle holds, from its construction to the start of its destruction. A thread that has
      left the shared object already holds its copy. */
  function ContentOf(s: State, r: Ref): Content {
    var obj := if r.phase.Left? then r.phase.tmp else r.obj;
    if obj in s.objs then Holds(s.objs[obj]) else Null
  }

  function Contents(s: State): map<Handle, Content> {
    map h | h in s.refs && InUse(s.refs[h]) :: ContentOf(s, s.refs[h])
  }

  function Get(m: map<Handle, Content>, h: Handle): Content {
    if h in m then m[h] else Null
  }

  /** The same operation on handles that share nothing; the inner steps of getWriteLock and of the
      destructor are no operations at all. */
  function Independent(m: map<Handle, Content>, op: Op): map<Handle, Content> {
    match op
    case NewOp(h, _, obj, value) => m[h := if obj == NULL then Null else Holds(value)]
    case CopyOp(h, from) => m[h := Get(m, from)]
    case CastToOp(h, from, _, castOk) => m[h := if castOk then Get(m, from) else Null]
    case SwapOp(h, other) => m[h := Get(m, other)][other := Get(m, h)]
    case DropDecOp(h) => m - {h}
    case WriteOp(h, value) => m[h := Holds(value)]
    case _ => m
  }

  /** The handle is between its construction and the start of its destruction. */
  predicate InUse(r: Ref) {
    !r.phase.LastOut? && !r.phase.CellGone? && !r.phase.Gone?
  }

  /** A step of h leaves alone, or newly allocates, every object another handle may reach. */
  ghost predicate SparesOthers(s: State, s': State, h: Handle) {
    && NULL !in s'.objs
    && (forall o :: o in s.objs && !ObjUnshared(s, h, o) ==> o in s'.objs && s'.objs[o] == s.objs[o])
  }

  lemma OtherContentKept(s: State, s': State, h: Handle, g: Handle)
    requires Inv(s) && SparesOthers(s, s', h)
    requires g in s.refs && g != h && InUse(s.refs[g])
    ensures ContentOf(s', s.refs[g]) == ContentOf(s, s.refs[g])
  {
    assert RefOk(s, s.refs[g]);
    var obj := if s.refs[g].phase.Left? then s.refs[g].phase.tmp else s.refs[g].obj;
    if obj in s.objs {
      assert HoldsObj(s.refs[g], obj);
    }
  }

  lemma StepSparesOthers(s: State, op: Op)
    requires NULL !in s.objs && Enabled(s, op) && Safe(s, op) && !op.SwapOp? && !op.CastToOp?
    ensures SparesOthers(s, Step(s, op), op.h)
  {
  }

  /** What the handle of a step shows afterwards is what the step would make of a handle by itself. */
  ghost predicate ShowsItsOwn(s: State, op: Op)
    requires Enabled(s, op) && Safe(s, op)
  {
    var s' := Step(s, op);
    op.h in s'.refs ==>
      if InUse(s'.refs[op.h]) then
        op.h in Independent(Contents(s), op) && Independent(Contents(s), op)[op.h] == ContentOf(s', s'.refs[op.h])
      else
        op.h !in Independent(Contents(s), op)
  }

  lemma OwnContentOutside(s: State, op: Op)
    requires NULL !in s.objs && Enabled(s, op) && Safe(s, op)
    requires op.NewOp? || op.CopyOp? || op.DropDecOp? || op.DeleteCellOp? || op.DeleteObjOp? || op.WriteOp?
             || op.EndWriteOp? || op.ReadOp?
    ensures ShowsItsOwn(s, op)
  {
  }

  lemma OwnContentInWriteLock(s: State, op: Op)
    requires Enabled(s, op) && Safe(s, op) && op.h in s.refs && RefOk(s, s.refs[op.h])
    requires op.TestOp? || op.EndCloneOp? || op.DecOp? || op.IncBackOp? || op.DeleteCopyOp? || op.ReplaceOp?
    ensures ShowsItsOwn(s, op)
  {
  }

  /** What becomes of the handle that takes the step. A thread gives up its object for a copy that
      still equals it, so getWriteLock changes nothing the handle shows. */
  lemma OwnContent(s: State, op: Op)
    requires RefsOk(s) && Enabled(s, op) && Safe(s, op) && !op.SwapOp? && !op.CastToOp?
    ensures ShowsItsOwn(s, op)
  {
    if op.TestOp? || op.EndCloneOp? || op.DecOp? || op.IncBackOp? || op.DeleteCopyOp? || op.ReplaceOp? {
      OwnContentInWriteLock(s, op);
    } else {
      OwnContentOutside(s, op);
    }
  }

  lemma OthersStay(s: State, op: Op, g: Handle)
    requires Enabled(s, op) && Safe(s, op) && !op.SwapOp? && !op.CastToOp? && g != op.h
    ensures g in Step(s, op).refs <==> g in s.refs
    ensures g in s.refs ==> Step(s, op).refs[g] == s.refs[g]
  {
  }

  lemma IndependentOthersStay(m: map<Handle, Content>, op: Op, g: Handle)
    requires !op.SwapOp? && g != op.h
    ensures g in Independent(m, op) <==> g in m
    ensures g in m ==> Independent(m, op)[g] == m[g]
  {
  }

  lemma SingleStepRefines(s: State, op: Op)
    requires Inv(s) && Enabled(s, op) && Safe(s, op) && !op.SwapOp? && !op.CastToOp?
    ensures Contents(Step(s, op)) == Independent(Contents(s), op)
  {
    var m, m' := Contents(Step(s, op)), Independent(Contents(s), op);
    forall g ensures (g in m <==> g in m') && (g in m ==> m[g] == m'[g]) {
      if g == op.h {
        OwnHandleRefines(s, op);
      } else {
        OtherHandleRefines(s, op, g);
      }
    }
  }

  lemma OwnHandleRefines(s: State, op: Op)
    requires Inv(s) && Enabled(s, op) && Safe(s, op) && !op.SwapOp? && !op.CastToOp?
    ensures var m, m' := Contents(Step(s, op)), Independent(Contents(s), op);
            (op.h in m <==> op.h in m') && (op.h in m ==> m[op.h] == m'[op.h])
  {
    OwnContent(s, op);
    assert op.h in Step(s, op).refs;
  }

  lemma OtherHandleRefines(s: State, op: Op, g: Handle)
    requires Inv(s) && Enabled(s, op) && Safe(s, op) && !op.SwapOp? && !op.CastToOp? && g != op.h
    ensures var m, m' := Contents(Step(s, op)), Independent(Contents(s), op);
            (g in m <==> g in m') && (g in m ==> m[g] == m'[g])
  {
    OthersStay(s, op, g);
    IndependentOthersStay(Contents(s), op, g);
    StepSparesOthers(s, op);
    if g in s.refs && InUse(s.refs[g]) {
      OtherContentKept(s, Step(s, op), op.h, g);
    }
  }

  lemma SwapRefines(s: State, h: Handle, g: Handle)
    requires InPhase(s, h, Idle) && InPhase(s, g, Idle)
    ensures Contents(Swap(s, h, g)) == Independent(Contents(s), SwapOp(h, g))
  {
  }

  lemma CastToRefines(s: State, h: Handle, from: Handle, cell: Addr, castOk: bool)
    requires Inv(s) && Enabled(s, CastToOp(h, from, cell, castOk)) && Safe(s, CastToOp(h, from, cell, castOk))
    ensures Contents(CastTo(s, h, from, cell, castOk)) ==
            Independent(Contents(s), CastToOp(h, from, cell, castOk))
  {
    CastToShares(s, h, from, cell, castOk);
    SingleStepRefines(s, CopyOp(h, from));
    SingleStepRefines(s, NewOp(h, cell, NULL, []));
    assert from in Contents(s);
  }

  /** Every step shows what the same operation does to handles that share nothing. */
  lemma StepRefines(s: State, op: Op)
    requires Inv(s) && Enabled(s, op)
    ensures Safe(s, op)
    ensures Contents(Step(s, op)) == Independent(Contents(s), op)
  {
    EnabledIsSafe(s, op);
    if op.SwapOp? {
      SwapRefines(s, op.h, op.other);
    } else if op.CastToOp? {
      CastToRefines(s, op.h, op.from, op.cell, op.castOk);
    } else {
      SingleStepRefines(s, op);
    }
  }

  function IndependentRun(m: map<Handle, Content>, ops: seq<Op>): map<Handle, Content>
    decreases |ops|
  {
    if ops == [] then m else IndependentRun(Independent(m, ops[0]), ops[1..])
  }

  /** Over every run, under every interleaving, each handle holds what it would hold if every
      handle owned its own value. */
  lemma {:induction false} RunRefines(s: State, ops: seq<Op>)
    requires Inv(s) && IsRun(s, ops)
    ensures AllSafe(s, ops)
    ensures Contents(Final(s, ops)) == IndependentRun(Contents(s), ops)
    decreases |ops|
  {
    if ops != [] {
      StepKeepsInv(s, ops[0]);
      StepRefines(s, ops[0]);
      RunRefines(Step(s, ops[0]), ops[1..]);
    }
  }
}
