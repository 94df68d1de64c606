/** Every operation on a copy-on-write handle comes to its end in a bounded number of its own steps, whatever
    other handles do in between: getWriteLock grants write access, and the destructor finishes. */
module CowProgress {
  import opened CowReference
  import opened CowRuns

  /** How many own steps are left at most of the operation that the handle is in. */
  function Remaining(phase: Phase): nat {
    match phase
    case Cloning => 4
    case Cloned(_) => 3
    case Alone(_) => 2
    case Discarding(_) => 1
    case Left(_) => 1
    case LastOut => 2
    case CellGone => 1
    case _ => 0
  }

  predicate Destroyed(phase: Phase) {
    phase.LastOut? || phase.CellGone? || phase.Gone?
  }

  /** Where the operation ends. */
  function Goal(phase: Phase): Phase {
    if Destroyed(phase) then Gone else Writing
  }

  // ----- single steps --------------------------------------------------------------------

  predicate SameKind(a: Op, b: Op) {
    || (a.EndCloneOp? && b.EndCloneOp?)
    || (a.DecOp? && b.DecOp?)
    || (a.IncBackOp? && b.IncBackOp?)
    || (a.DeleteCopyOp? && b.DeleteCopyOp?)
    || (a.ReplaceOp? && b.ReplaceOp?)
    || (a.DeleteCellOp? && b.DeleteCellOp?)
    || (a.DeleteObjOp? && b.DeleteObjOp?)
  }

  lemma {:induction false} Fresh(used: set<Addr>) returns (a: Addr)
    ensures a !in used && a != NULL && forall b :: b in used ==> b < a
  {
    if used == {} {
      return 1;
    }
    var b :| b in used;
    var c := Fresh(used - {b});
    a := if c > b then c else b + 1;
    assert forall x :: x in used ==> x == b || x in used - {b};
  }

  /** In the middle of an operation a handle has just one kind of step to take. */
  lemma OneWayOn(s: State, h: Handle)
    requires h in s.refs && Remaining(s.refs[h].phase) > 0
    ensures exists op :: Enabled(s, op) && op.h == h
    ensures forall a, b :: Enabled(s, a) && Enabled(s, b) && a.h == h && b.h == h ==> SameKind(a, b)
  {
    var cell := Fresh(s.cells.Keys);
    var tmp := Fresh(s.objs.Keys);
    var op := match s.refs[h].phase
              case Cloning => EndCloneOp(h, tmp)
              case Cloned(_) => DecOp(h)
              case Alone(_) => IncBackOp(h)
              case Discarding(_) => DeleteCopyOp(h)
              case Left(_) => ReplaceOp(h, cell)
              case LastOut => DeleteCellOp(h)
              case _ => DeleteObjOp(h);
    assert Enabled(s, op);
  }

  lemma OwnStepAdvances(s: State, op: Op)
    requires Enabled(s, op) && Safe(s, op) && op.h in s.refs && Remaining(s.refs[op.h].phase) > 0
    ensures op.h in Step(s, op).refs
    ensures var phase, phase' := s.refs[op.h].phase, Step(s, op).refs[op.h].phase;
            Remaining(phase') < Remaining(phase) && !phase'.Idle? && Goal(phase') == Goal(phase)
  {
  }

  lemma OthersLeaveIt(s: State, op: Op, h: Handle)
    requires Enabled(s, op) && Safe(s, op) && h in s.refs && !s.refs[h].phase.Idle? && op.h != h
    ensures h in Step(s, op).refs && Step(s, op).refs[h] == s.refs[h]
  {
    if op.CastToOp? {
      CastToShares(s, op.h, op.from, op.cell, op.castOk);
    }
  }

  lemma PhaseAfter(s: State, op: Op)
    requires Enabled(s, op) && Safe(s, op) && (op.h in s.refs ==> Remaining(s.refs[op.h].phase) == 0)
    ensures op.h in Step(s, op).refs
    ensures Step(s, op).refs[op.h].phase ==
            match op
            case TestOp(h) => if s.cells[s.refs[h].cell] > 1 then Cloning else Writing
            case DropDecOp(h) => if s.cells[s.refs[h].cell] == 1 then LastOut else Gone
            case WriteOp(_, _) => Writing
            case _ => Idle
    ensures op.SwapOp? ==> InPhase(Step(s, op), op.other, Idle)
  {
    if op.CastToOp? {
      CastToShares(s, op.h, op.from, op.cell, op.castOk);
    }
  }

  /** getWriteLock goes on for a handle that is shared, and is done for one that is not; the destructor is done
      for a shared one; every other operation is complete in one step, and its handle ready for the next. */
  lemma WhatStarts(s: State, op: Op)
    requires Inv(s) && Enabled(s, op) && (op.h in s.refs ==> Remaining(s.refs[op.h].phase) == 0)
    ensures Safe(s, op) && op.h in Step(s, op).refs
    ensures Step(s, op).refs[op.h].phase ==
            match op
            case TestOp(h) => if Shared(s, h) then Cloning else Writing
            case DropDecOp(h) => if Shared(s, h) then Gone else LastOut
            case WriteOp(_, _) => Writing
            case _ => Idle
    ensures op.SwapOp? ==> InPhase(Step(s, op), op.other, Idle)
  {
    EnabledIsSafe(s, op);
    PhaseAfter(s, op);
    if op.TestOp? || op.DropDecOp? {
      CountIsShared(s, op.h);
    }
  }

  lemma CountIsShared(s: State, h: Handle)
    requires Inv(s) && h in s.refs && s.refs[h].phase.Counted()
    ensures CanDec(s, h) && (s.cells[s.refs[h].cell] > 1 <==> Shared(s, h))
  {
    CountTellsOthers(s, h);
  }

  // ----- runs ----------------------------------------------------------------------------

  function OwnSteps(ops: seq<Op>, h: Handle): nat {
    if ops == [] then 0 else (if ops[0].h == h then 1 else 0) + OwnSteps(ops[1..], h)
  }

  /** Every time h looks at the count, another handle is on its cell. */
  ghost predicate AlwaysShared(s: State, ops: seq<Op>, h: Handle)
    requires IsRun(s, ops) && AllSafe(s, ops)
    decreases |ops|
  {
    ops == [] ||
    (&& (ops[0] == TestOp(h) || ops[0] == DecOp(h) ==> Shared(s, h))
     && AlwaysShared(Step(s, ops[0]), ops[1..], h))
  }

  /** After these steps h has done what it was doing, in few steps of its own. */
  ghost predicate Done(s: State, ops: seq<Op>, h: Handle)
    requires h in s.refs
  {
    && IsRun(s, ops) && AllSafe(s, ops) && InPhase(Final(s, ops), h, Goal(s.refs[h].phase))
    && OwnSteps(ops, h) <= Remaining(s.refs[h].phase)
  }

  /** On which object a handle ends that is getting write access: on its own exactly if at some look at the
      count nobody else was on its cell. */
  predicate EndsOn(r: Ref, obj: Addr, shared: bool) {
    && (r.phase.Cloning? || r.phase.Cloned? ==> (obj != r.obj <==> shared))
    && (r.phase.Left? ==> obj == r.phase.tmp && shared)
    && (r.phase.Sole() ==> obj == r.obj)
    && (r.phase.Writing? ==> shared)
  }

  ghost predicate Ends(s: State, ops: seq<Op>, h: Handle)
    requires h in s.refs && Done(s, ops, h)
  {
    EndsOn(s.refs[h], Final(s, ops).refs[h].obj, AlwaysShared(s, ops, h))
  }

  lemma DoneFirst(s: State, op: Op, ops: seq<Op>, h: Handle)
    requires Enabled(s, op) && Safe(s, op) && h in s.refs && Remaining(s.refs[h].phase) > 0
    requires h in Step(s, op).refs && Done(Step(s, op), ops, h)
    ensures Done(s, [op] + ops, h) && Final(s, [op] + ops) == Final(Step(s, op), ops)
  {
    var all := [op] + ops;
    assert all[0] == op && all[1..] == ops;
    if op.h == h {
      OwnStepAdvances(s, op);
    } else {
      OthersLeaveIt(s, op, h);
    }
  }

  /** Where a step brings its handle that is getting write access. */
  predicate Leads(r: Ref, r': Ref, shared: bool) {
    match r.phase
    case Cloning => r'.phase.Cloned? && r'.obj == r.obj
    case Cloned(tmp) => tmp != r.obj && r'.obj == r.obj && r'.phase == if shared then Left(tmp) else Alone(tmp)
    case Left(tmp) => r'.phase == Writing && r'.obj == tmp
    case _ => r'.phase.Sole() && r'.obj == r.obj
  }

  lemma LeadsToEnd(r: Ref, r': Ref, obj: Addr, looks: bool, shared: bool, shared': bool)
    requires r.phase.MidWrite() && !r.phase.Writing? && Leads(r, r', shared) && EndsOn(r', obj, shared')
    requires looks <==> r.phase.Cloned?
    ensures EndsOn(r, obj, (looks ==> shared) && shared')
  {
  }

  lemma OwnStepLeads(s: State, op: Op)
    requires Inv(s) && Enabled(s, op) && Safe(s, op) && op.h in s.refs && Remaining(s.refs[op.h].phase) > 0
    requires !Destroyed(s.refs[op.h].phase)
    ensures op.h in Step(s, op).refs && Leads(s.refs[op.h], Step(s, op).refs[op.h], Shared(s, op.h))
    ensures op.DecOp? <==> s.refs[op.h].phase.Cloned?
    ensures !op.TestOp?
  {
    if op.DecOp? {
      CopyIsOther(s, op.h);
      CountIsShared(s, op.h);
    }
  }

  lemma SharedFirst(s: State, op: Op, ops: seq<Op>, h: Handle)
    requires Enabled(s, op) && Safe(s, op) && IsRun(Step(s, op), ops) && AllSafe(Step(s, op), ops)
    ensures IsRun(s, [op] + ops) && AllSafe(s, [op] + ops)
    ensures AlwaysShared(s, [op] + ops, h) <==>
            (op == TestOp(h) || op == DecOp(h) ==> Shared(s, h)) && AlwaysShared(Step(s, op), ops, h)
  {
    var all := [op] + ops;
    assert all[0] == op && all[1..] == ops;
  }

  lemma EndsOnFirst(s: State, op: Op, ops: seq<Op>, h: Handle)
    requires Inv(s) && Enabled(s, op) && Safe(s, op) && h in s.refs && Remaining(s.refs[h].phase) > 0
    requires !Destroyed(s.refs[h].phase) && h in Step(s, op).refs && Done(Step(s, op), ops, h)
    requires Ends(Step(s, op), ops, h) && Done(s, [op] + ops, h)
    requires Final(s, [op] + ops) == Final(Step(s, op), ops)
    ensures Ends(s, [op] + ops, h)
  {
    var s' := Step(s, op);
    var obj := Final(s', ops).refs[h].obj;
    SharedFirst(s, op, ops, h);
    if op.h == h {
      OwnStepLeads(s, op);
      LeadsToEnd(s.refs[h], s'.refs[h], obj, op.DecOp?, Shared(s, h), AlwaysShared(s', ops, h));
    } else {
      OthersLeaveIt(s, op, h);
    }
  }

  lemma CopyIsOther(s: State, h: Handle)
    requires Inv(s) && h in s.refs && s.refs[h].phase.Cloned?
    ensures s.refs[h].phase.tmp != s.refs[h].obj
  {
    assert RefOk(s, s.refs[h]);
  }

  lemma NothingLeft(s: State, ops: seq<Op>, h: Handle)
    requires ops == [] && h in s.refs && !s.refs[h].phase.Idle? && Remaining(s.refs[h].phase) == 0
    ensures Completes(s, ops, h)
  {
  }

  lemma Advance(s: State, op: Op, h: Handle) returns (s': State)
    requires Inv(s) && Enabled(s, op) && h in s.refs && Remaining(s.refs[h].phase) > 0
    ensures Safe(s, op) && s' == Step(s, op) && Inv(s') && h in s'.refs && !s'.refs[h].phase.Idle?
    ensures Destroyed(s'.refs[h].phase) == Destroyed(s.refs[h].phase)
    ensures Remaining(s'.refs[h].phase) + (if op.h == h then 1 else 0) <= Remaining(s.refs[h].phase)
  {
    StepKeepsInv(s, op);
    s' := Step(s, op);
    if op.h == h {
      OwnStepAdvances(s, op);
    } else {
      OthersLeaveIt(s, op, h);
    }
  }

  /** What h was doing is done. */
  ghost predicate Completes(s: State, ops: seq<Op>, h: Handle)
    requires h in s.refs
  {
    Done(s, ops, h) && (!Destroyed(s.refs[h].phase) ==> Ends(s, ops, h))
  }

  lemma CompletesFirst(s: State, op: Op, s': State, ops: seq<Op>, h: Handle)
    requires Inv(s) && Enabled(s, op) && Safe(s, op) && s' == Step(s, op)
    requires h in s.refs && Remaining(s.refs[h].phase) > 0 && h in s'.refs
    requires Destroyed(s'.refs[h].phase) == Destroyed(s.refs[h].phase) && Completes(s', ops, h)
    ensures Completes(s, [op] + ops, h)
  {
    DoneFirst(s, op, ops, h);
    if !Destroyed(s.refs[h].phase) {
      EndsOnFirst(s, op, ops, h);
    }
  }

  lemma FirstOf(ops: seq<Op>, h: Handle) returns (op: Op)
    requires OwnSteps(ops, h) > 0
    ensures ops != [] && op == ops[0]
  {
    op := ops[0];
  }

  lemma RestOfRun(s: State, op: Op, ops: seq<Op>, h: Handle)
    requires IsRun(s, ops) && ops != [] && ops[0] == op && Safe(s, op)
    ensures IsRun(Step(s, op), ops[1..])
    ensures OwnSteps(ops, h) == (if op.h == h then 1 else 0) + OwnSteps(ops[1..], h)
  {
  }

  /** A run with enough steps of a handle completes what the handle was doing. */
  lemma {:induction false} OperationEnds(s: State, ops: seq<Op>, h: Handle) returns (k: nat)
    requires Inv(s) && IsRun(s, ops) && h in s.refs && !s.refs[h].phase.Idle?
    requires OwnSteps(ops, h) >= Remaining(s.refs[h].phase)
    ensures k <= |ops| && Completes(s, ops[..k], h)
    decreases |ops|
  {
    if Remaining(s.refs[h].phase) == 0 {
      NothingLeft(s, ops[..0], h);
      k := 0;
    } else {
      var op := FirstOf(ops, h);
      var s' := Advance(s, op, h);
      RestOfRun(s, op, ops, h);
      var rest := OperationEnds(s', ops[1..], h);
      CompletesFirst(s, op, s', ops[1..][..rest], h);
      Prefix(ops, op, rest);
      k := rest + 1;
    }
  }

  /** How many own steps getWriteLock and the destructor take at most: more if others share. */
  ghost function StepsOf(s: State, op: Op): nat
    requires op.h in s.refs
  {
    if !op.TestOp? then if Shared(s, op.h) then 1 else 3
    else if Shared(s, op.h) then 5
    else 1
  }

  /** These steps give h write access, in no more steps of its own; it ends on another object than it started on
      exactly if both looks at the count found it shared. */
  ghost predicate GivesAccess(s: State, ops: seq<Op>, h: Handle)
    requires h in s.refs
  {
    && IsRun(s, ops) && AllSafe(s, ops) && InPhase(Final(s, ops), h, Writing)
    && OwnSteps(ops, h) <= StepsOf(s, TestOp(h))
    && (Final(s, ops).refs[h].obj != s.refs[h].obj <==> AlwaysShared(s, ops, h))
  }

  ghost predicate Destroys(s: State, ops: seq<Op>, h: Handle)
    requires h in s.refs
  {
    && IsRun(s, ops) && AllSafe(s, ops) && InPhase(Final(s, ops), h, Gone)
    && OwnSteps(ops, h) <= StepsOf(s, DropDecOp(h))
  }

  /** The phase after the first step of getWriteLock or of the destructor. */
  function StartedIn(op: Op, shared: bool): Phase {
    if op.TestOp? then if shared then Cloning else Writing
    else if shared then Gone
    else LastOut
  }

  lemma StartedPhase(s: State, op: Op, count: nat)
    requires Enabled(s, op) && Safe(s, op) && (op.TestOp? || op.DropDecOp?)
    requires CanDec(s, op.h) && (count == s.cells[s.refs[op.h].cell])
    ensures op.h in Step(s, op).refs && Step(s, op).refs[op.h].phase == StartedIn(op, count > 1)
  {
  }

  lemma StartedSteps(s: State, op: Op)
    requires op.h in s.refs && (op.TestOp? || op.DropDecOp?)
    ensures 1 + Remaining(StartedIn(op, Shared(s, op.h))) == StepsOf(s, op)
    ensures Destroyed(StartedIn(op, Shared(s, op.h))) <==> op.DropDecOp?
  {
  }

  lemma StartFirst(s: State, op: Op, ops: seq<Op>)
    requires Enabled(s, op) && Safe(s, op) && IsRun(Step(s, op), ops) && AllSafe(Step(s, op), ops)
    ensures IsRun(s, [op] + ops) && AllSafe(s, [op] + ops)
    ensures OwnSteps([op] + ops, op.h) == 1 + OwnSteps(ops, op.h)
    ensures Final(s, [op] + ops) == Final(Step(s, op), ops)
  {
    var all := [op] + ops;
    assert all[0] == op && all[1..] == ops;
  }

  lemma AccessAfterTest(s: State, op: Op, s': State, ops: seq<Op>)
    requires Enabled(s, op) && Safe(s, op) && op.TestOp? && s' == Step(s, op) && op.h in s'.refs
    requires s'.refs[op.h].phase == StartedIn(op, Shared(s, op.h)) && Done(s', ops, op.h) && Ends(s', ops, op.h)
    ensures GivesAccess(s, [op] + ops, op.h)
  {
    StartFirst(s, op, ops);
    SharedFirst(s, op, ops, op.h);
    assert s'.refs[op.h].obj == s.refs[op.h].obj;
  }

  lemma GoneAfterDrop(s: State, op: Op, s': State, ops: seq<Op>)
    requires Enabled(s, op) && Safe(s, op) && op.DropDecOp? && s' == Step(s, op) && op.h in s.refs && op.h in s'.refs
    requires s'.refs[op.h].phase == StartedIn(op, Shared(s, op.h)) && Done(s', ops, op.h)
    ensures Destroys(s, [op] + ops, op.h)
  {
    StartFirst(s, op, ops);
  }

  lemma Prefix(ops: seq<Op>, op: Op, k: nat)
    requires ops != [] && ops[0] == op && k < |ops|
    ensures [op] + ops[1..][..k] == ops[..k + 1]
  {
  }

  lemma Rest(s: State, ops: seq<Op>, h: Handle)
    requires IsRun(s, ops) && ops != [] && Safe(s, ops[0]) && ops[0].h == h
    ensures IsRun(Step(s, ops[0]), ops[1..]) && OwnSteps(ops[1..], h) == OwnSteps(ops, h) - 1
  {
  }

  lemma StartedEnds(s: State, op: Op, ops: seq<Op>) returns (s': State, k: nat, done: seq<Op>)
    requires Inv(s) && IsRun(s, ops) && ops != [] && ops[0] == op && (op.TestOp? || op.DropDecOp?)
    requires op.h in s.refs && OwnSteps(ops, op.h) >= StepsOf(s, op)
    ensures k <= |ops| && ops[..k] == [op] + done
    ensures Safe(s, op) && s' == Step(s, op) && op.h in s'.refs && Done(s', done, op.h)
    ensures s'.refs[op.h].phase == StartedIn(op, Shared(s, op.h))
    ensures op.TestOp? ==> Ends(s', done, op.h)
  {
    StepKeepsInv(s, op);
    CountIsShared(s, op.h);
    StartedPhase(s, op, s.cells[s.refs[op.h].cell]);
    StartedSteps(s, op);
    s' := Step(s, op);
    Rest(s, ops, op.h);
    var others := ops[1..];
    var rest := OperationEnds(s', others, op.h);
    done := others[..rest];
    Prefix(ops, op, rest);
    k := rest + 1;
  }

  /** getWriteLock grants write access, whatever other handles do in between. */
  lemma WriteLockIsGranted(s: State, ops: seq<Op>, h: Handle) returns (k: nat)
    requires Inv(s) && IsRun(s, ops) && ops != [] && ops[0] == TestOp(h)
    requires h in s.refs && OwnSteps(ops, h) >= StepsOf(s, TestOp(h))
    ensures k <= |ops| && GivesAccess(s, ops[..k], h)
  {
    var s', done;
    s', k, done := StartedEnds(s, ops[0], ops);
    AccessAfterTest(s, ops[0], s', done);
  }

  /** The destructor ends. */
  lemma DestructorEnds(s: State, ops: seq<Op>, h: Handle) returns (k: nat)
    requires Inv(s) && IsRun(s, ops) && ops != [] && ops[0] == DropDecOp(h)
    requires h in s.refs && OwnSteps(ops, h) >= StepsOf(s, DropDecOp(h))
    ensures k <= |ops| && Destroys(s, ops[..k], h)
  {
    var s', done;
    s', k, done := StartedEnds(s, ops[0], ops);
    GoneAfterDrop(s, ops[0], s', done);
  }
}
