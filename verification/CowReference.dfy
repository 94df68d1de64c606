/** COWReference under concurrency: a shared count cell and a shared object per group of handles,
    every atomic action on a count its own step, and any interleaving of the steps of different
    handles. One handle is used by one thread at a time, so a handle's phase is the place its
    thread has reached inside the current operation. Freed addresses may be handed out again. */
module CowReference {

  type Handle = nat
  type Addr = nat
  type Value = seq<int>

  const NULL: Addr := 0

  datatype Phase =
    | Idle
    | Cloning              // getWriteLock saw a count above one and is copying the object
    | Cloned(tmp: Addr)    // the private copy is complete
    | Alone(tmp: Addr)     // decAndTest hit zero: the count is about to be restored
    | Discarding(tmp: Addr)// the count is restored: the copy is about to be deleted
    | Left(tmp: Addr)      // decAndTest stayed above zero: about to switch to the copy
    | Writing              // getWriteLock has returned and its pointer is in use
    | LastOut              // the destructor hit zero: about to delete cell and object
    | CellGone             // the destructor deleted the cell: about to delete the object
    | Gone                 // destroyed
  {
    /** Is the handle still counted on its cell? */
    predicate Counted() { Idle? || Cloning? || Cloned? || Discarding? || Writing? }

    /** May the handle still touch its cell, its object? */
    predicate UsesCell() { Counted() || Alone? || LastOut? }
    predicate UsesObj() { UsesCell() || CellGone? }

    predicate HasCopy() { Cloned? || Alone? || Discarding? || Left? }

    /** Must the handle be the only one on its cell? */
    predicate Sole() { Alone? || Discarding? || Writing? || LastOut? }

    predicate MidWrite() { Cloning? || HasCopy() || Writing? }
  }

  datatype Ref = Ref(cell: Addr, obj: Addr, phase: Phase)

  /** Live cells with their counts, live objects with their values, and the handles. */
  datatype State = State(cells: map<Addr, nat>, objs: map<Addr, Value>, refs: map<Handle, Ref>)

  const INIT := State(map[], map[], map[])

  predicate InPhase(s: State, h: Handle, phase: Phase) {
    h in s.refs && s.refs[h].phase == phase
  }

  // ----- the atomic steps ----------------------------------------------------------------
  // Each requires what callers and the allocator guarantee, and that the memory it touches or
  // deletes is live, counts stay above zero and nobody is cloning what it writes.

  function Goto(s: State, h: Handle, phase: Phase): map<Handle, Ref>
    requires h in s.refs
  {
    s.refs[h := s.refs[h].(phase := phase)]
  }

  function Inc(cells: map<Addr, nat>, cell: Addr): map<Addr, nat>
    requires cell in cells
  {
    cells[cell := cells[cell] + 1]
  }

  /** COWReference(T*) with a fresh cell; a null pointer makes a null handle. */
  function New(s: State, h: Handle, cell: Addr, obj: Addr, value: Value): State {
    State(s.cells[cell := 1],
          if obj == NULL then s.objs else s.objs[obj := value],
          s.refs[h := Ref(cell, obj, Idle)])
  }

  /** The copy constructor. */
  function Copy(s: State, h: Handle, from: Handle): State
    requires from in s.refs && s.refs[from].cell in s.cells
  {
    State(Inc(s.cells, s.refs[from].cell), s.objs, s.refs[h := s.refs[from]])
  }

  function Swap(s: State, h: Handle, g: Handle): State
    requires h in s.refs && g in s.refs
  {
    s.(refs := s.refs[h := s.refs[g]][g := s.refs[h]])
  }

  predicate CanDec(s: State, h: Handle) {
    h in s.refs && s.refs[h].cell in s.cells && s.cells[s.refs[h].cell] > 0
  }

  /** decAndTest in the destructor. */
  function DropDec(s: State, h: Handle): State
    requires CanDec(s, h)
  {
    var cell := s.refs[h].cell;
    s.(cells := s.cells[cell := s.cells[cell] - 1],
       refs := Goto(s, h, if s.cells[cell] == 1 then LastOut else Gone))
  }

  function DeleteCell(s: State, h: Handle): State
    requires h in s.refs && s.refs[h].cell in s.cells
  {
    s.(cells := s.cells - {s.refs[h].cell}, refs := Goto(s, h, CellGone))
  }

  function DeleteObj(s: State, h: Handle): State
    requires h in s.refs && (s.refs[h].obj == NULL || s.refs[h].obj in s.objs)
  {
    s.(objs := s.objs - {s.refs[h].obj}, refs := Goto(s, h, Gone))
  }

  /** The first test of getWriteLock. */
  function Test(s: State, h: Handle): State
    requires h in s.refs && s.refs[h].cell in s.cells
  {
    s.(refs := Goto(s, h, if s.cells[s.refs[h].cell] > 1 then Cloning else Writing))
  }

  function EndClone(s: State, h: Handle, tmp: Addr): State
    requires h in s.refs && s.refs[h].obj in s.objs
  {
    s.(objs := s.objs[tmp := s.objs[s.refs[h].obj]], refs := Goto(s, h, Cloned(tmp)))
  }

  /** decAndTest in getWriteLock. */
  function Dec(s: State, h: Handle): State
    requires CanDec(s, h) && s.refs[h].phase.HasCopy()
  {
    var cell, tmp := s.refs[h].cell, s.refs[h].phase.tmp;
    s.(cells := s.cells[cell := s.cells[cell] - 1],
       refs := Goto(s, h, if s.cells[cell] == 1 then Alone(tmp) else Left(tmp)))
  }

  function IncBack(s: State, h: Handle): State
    requires h in s.refs && s.refs[h].cell in s.cells && s.refs[h].phase.HasCopy()
  {
    s.(cells := Inc(s.cells, s.refs[h].cell), refs := Goto(s, h, Discarding(s.refs[h].phase.tmp)))
  }

  function DeleteCopy(s: State, h: Handle): State
    requires h in s.refs && s.refs[h].phase.HasCopy() && s.refs[h].phase.tmp in s.objs
  {
    s.(objs := s.objs - {s.refs[h].phase.tmp}, refs := Goto(s, h, Writing))
  }

  /** A new cell, and the copy in place of the shared object. */
  function Replace(s: State, h: Handle, cell: Addr): State
    requires h in s.refs && s.refs[h].phase.HasCopy()
  {
    s.(cells := s.cells[cell := 1], refs := s.refs[h := Ref(cell, s.refs[h].phase.tmp, Writing)])
  }

  predicate BeingCloned(s: State, obj: Addr) {
    exists g :: g in s.refs && s.refs[g].phase.Cloning? && s.refs[g].obj == obj
  }

  function Write(s: State, h: Handle, value: Value): State
    requires h in s.refs && s.refs[h].obj in s.objs && !BeingCloned(s, s.refs[h].obj)
  {
    s.(objs := s.objs[s.refs[h].obj := value])
  }

  function EndWrite(s: State, h: Handle): State
    requires h in s.refs
  {
    s.(refs := Goto(s, h, Idle))
  }

  // ----- the invariant -------------------------------------------------------------------

  predicate CountedOn(r: Ref, cell: Addr) {
    r.phase.Counted() && r.cell == cell
  }

  /** The handles still counted on a cell. */
  function Counters(refs: map<Handle, Ref>, cell: Addr): set<Handle> {
    set h | h in refs && CountedOn(refs[h], cell)
  }

  /** The count of each live cell is the number of handles still counted on it. */
  ghost predicate CountsExact(s: State) {
    forall c :: c in s.cells ==> s.cells[c] == |Counters(s.refs, c)|
  }

  /** What a handle may touch is alive, and a finished copy is private and equals the original
      until its thread leaves the original. */
  ghost predicate RefOk(s: State, r: Ref) {
    && (r.phase.UsesCell() ==> r.cell in s.cells)
    && (r.phase.UsesObj() && r.obj != NULL ==> r.obj in s.objs)
    && (r.phase.MidWrite() ==> r.obj != NULL)
    && (r.phase.HasCopy() ==> r.phase.tmp in s.objs)
    && (r.phase.HasCopy() && r.phase.UsesObj() ==> r.phase.tmp != r.obj)
    && (r.phase.Cloned? ==> s.objs[r.phase.tmp] == s.objs[r.obj])
  }

  /** Two handles on one cell share one object, and neither may write it; an object belongs to one
      cell; private copies are private. */
  ghost predicate Compatible(r: Ref, q: Ref) {
    && (r.phase.UsesCell() && q.phase.UsesCell() && r.cell == q.cell ==>
          r.obj == q.obj && !r.phase.Sole() && !q.phase.Sole())
    && (r.phase.UsesObj() && q.phase.UsesObj() && r.obj == q.obj && r.obj != NULL ==>
          r.phase.UsesCell() && q.phase.UsesCell() && r.cell == q.cell)
    && (r.phase.HasCopy() && q.phase.UsesObj() ==> r.phase.tmp != q.obj)
    && (r.phase.HasCopy() && q.phase.HasCopy() ==> r.phase.tmp != q.phase.tmp)
  }

  ghost predicate RefsOk(s: State) {
    NULL !in s.objs && forall h :: h in s.refs ==> RefOk(s, s.refs[h])
  }

  ghost predicate Pairwise(refs: map<Handle, Ref>) {
    forall h, g :: h in refs && g in refs && h != g ==> Compatible(refs[h], refs[g])
  }

  predicate HoldsCell(r: Ref, cell: Addr) {
    r.phase.UsesCell() && r.cell == cell
  }

  predicate HoldsObj(r: Ref, obj: Addr) {
    (r.phase.UsesObj() && r.obj == obj) || (r.phase.HasCopy() && r.phase.tmp == obj)
  }

  /** Nothing leaks: every live cell and object has a handle whose thread will release it. */
  ghost predicate CellsHeld(cells: map<Addr, nat>, refs: map<Handle, Ref>) {
    forall c :: c in cells ==> exists h :: h in refs && HoldsCell(refs[h], c)
  }

  ghost predicate ObjsHeld(objs: map<Addr, Value>, refs: map<Handle, Ref>) {
    forall o :: o in objs ==> exists h :: h in refs && HoldsObj(refs[h], o)
  }

  ghost predicate Inv(s: State) {
    && CountsExact(s) && RefsOk(s) && Pairwise(s.refs)
    && CellsHeld(s.cells, s.refs) && ObjsHeld(s.objs, s.refs)
  }

  // ----- every step keeps the invariant --------------------------------------------------

  function Weight(r: Ref, cell: Addr): nat {
    if CountedOn(r, cell) then 1 else 0
  }

  lemma CountersUpdate(refs: map<Handle, Ref>, h: Handle, r: Ref, cell: Addr)
    ensures |Counters(refs[h := r], cell)| ==
            |Counters(refs, cell)| + Weight(r, cell) - if h in refs then Weight(refs[h], cell) else 0
  {
    var rest := set g | g in refs && g != h && CountedOn(refs[g], cell);
    if h in refs && CountedOn(refs[h], cell) {
      assert Counters(refs, cell) == rest + {h};
    } else {
      assert Counters(refs, cell) == rest;
    }
    if CountedOn(r, cell) {
      assert Counters(refs[h := r], cell) == rest + {h};
    } else {
      assert Counters(refs[h := r], cell) == rest;
    }
  }

  lemma CountedIsPositive(s: State, h: Handle)
    requires CountsExact(s) && RefsOk(s) && h in s.refs && s.refs[h].phase.Counted()
    ensures s.cells[s.refs[h].cell] > 0
    ensures s.cells[s.refs[h].cell] == 1 ==> Counters(s.refs, s.refs[h].cell) == {h}
  {
    var cs := Counters(s.refs, s.refs[h].cell);
    assert h in cs;
    if |cs| == 1 {
      assert |cs - {h}| == 0;
      assert cs == {h};
    }
  }

  /** One handle changes, and the cells change by as much as that handle's place in the counts. */
  lemma CountsUpdate(s: State, s': State, h: Handle, r: Ref)
    requires CountsExact(s) && s'.refs == s.refs[h := r]
    requires forall c :: c in s'.cells ==>
               s'.cells[c] == |Counters(s.refs, c)| + Weight(r, c) - (if h in s.refs then Weight(s.refs[h], c) else 0)
    ensures CountsExact(s')
  {
    forall c | c in s'.cells ensures s'.cells[c] == |Counters(s'.refs, c)| {
      CountersUpdate(s.refs, h, r, c);
    }
  }

  lemma PairwiseUpdate(refs: map<Handle, Ref>, h: Handle, r: Ref)
    requires Pairwise(refs)
    requires forall g :: g in refs && g != h ==> Compatible(r, refs[g]) && Compatible(refs[g], r)
    ensures Pairwise(refs[h := r])
  {
  }

  /** The old holder of a cell or object keeps it, hands it to another, or has deleted it. */
  lemma HeldUpdate(s: State, s': State, h: Handle, r: Ref)
    requires CellsHeld(s.cells, s.refs) && ObjsHeld(s.objs, s.refs)
    requires s'.refs == s.refs[h := r]
    requires forall c :: c in s'.cells ==>
               HoldsCell(r, c) || (c in s.cells && (h in s.refs && HoldsCell(s.refs[h], c) ==>
                                     exists g :: g in s.refs && g != h && HoldsCell(s.refs[g], c)))
    requires forall o :: o in s'.objs ==>
               HoldsObj(r, o) || (o in s.objs && (h in s.refs && HoldsObj(s.refs[h], o) ==>
                                    exists g :: g in s.refs && g != h && HoldsObj(s.refs[g], o)))
    ensures CellsHeld(s'.cells, s'.refs) && ObjsHeld(s'.objs, s'.refs)
  {
    assert h in s'.refs && s'.refs[h] == r;
    assert forall g :: g in s.refs && g != h ==> g in s'.refs && s'.refs[g] == s.refs[g];
  }

  lemma OthersKept(s: State, s': State, h: Handle, r: Ref)
    requires RefsOk(s) && Pairwise(s.refs) && s'.refs == s.refs[h := r]
    requires NULL !in s'.objs && RefOk(s', r)
    requires forall g :: g in s.refs && g != h ==>
               RefOk(s', s.refs[g]) && Compatible(r, s.refs[g]) && Compatible(s.refs[g], r)
    ensures RefsOk(s') && Pairwise(s'.refs)
  {
    PairwiseUpdate(s.refs, h, r);
  }

  lemma NewKeepsInv(s: State, h: Handle, cell: Addr, obj: Addr, value: Value)
    requires Inv(s) && h !in s.refs && cell !in s.cells && obj !in s.objs
    ensures Inv(New(s, h, cell, obj, value))
  {
    var s' := New(s, h, cell, obj, value);
    forall g | g in s.refs && g != h
      ensures RefOk(s', s.refs[g]) && Compatible(s'.refs[h], s.refs[g]) && Compatible(s.refs[g], s'.refs[h])
    {
      assert RefOk(s, s.refs[g]);
    }
    OthersKept(s, s', h, s'.refs[h]);
    CountsUpdate(s, s', h, s'.refs[h]);
    HeldUpdate(s, s', h, s'.refs[h]);
  }

  // Most steps only give up rights: the handle keeps its cell and object and may use no more of
  // them than before.

  predicate Shrinks(r: Ref, r': Ref) {
    && r'.cell == r.cell && r'.obj == r.obj
    && (r'.phase.UsesCell() ==> r.phase.UsesCell())
    && (r'.phase.UsesObj() ==> r.phase.UsesObj())
    && (r'.phase.HasCopy() ==> r.phase.HasCopy() && r'.phase.tmp == r.phase.tmp)
    && (r'.phase.CellGone? ==> r.phase.LastOut?)
  }

  lemma ShrinkCompatible(r: Ref, r': Ref, q: Ref)
    requires Shrinks(r, r') && Compatible(r, q) && Compatible(q, r)
    requires r'.phase.Sole() && !r.phase.Sole() ==> !HoldsCell(q, r.cell)
    ensures Compatible(r', q) && Compatible(q, r')
  {
  }

  ghost predicate Shared(s: State, h: Handle)
    requires h in s.refs
  {
    exists g :: g in s.refs && g != h && HoldsCell(s.refs[g], s.refs[h].cell)
  }

  ghost predicate Unshared(s: State, h: Handle)
    requires h in s.refs
  {
    forall g :: g in s.refs && g != h ==> !HoldsCell(s.refs[g], s.refs[h].cell)
  }

  /** Deleting what only h may touch does not disturb the others. */
  ghost predicate DeletesOwn(s: State, s': State, r: Ref) {
    && (forall c :: c in s'.cells ==> c in s.cells)
    && (forall c :: c in s.cells && c !in s'.cells ==> c == r.cell && r.phase.LastOut?)
    && (forall o :: o in s'.objs ==> o in s.objs && s'.objs[o] == s.objs[o])
    && (forall o :: o in s.objs && o !in s'.objs ==>
          (r.phase.CellGone? && o == r.obj) || (r.phase.HasCopy() && o == r.phase.tmp))
  }

  lemma DeletesOwnKeepsOther(s: State, s': State, r: Ref, q: Ref)
    requires DeletesOwn(s, s', r) && Compatible(r, q) && Compatible(q, r) && RefOk(s, q)
    ensures RefOk(s', q)
  {
  }

  /** A step of h that gives up rights, deletes only what h alone may touch, moves the count of its
      cell by as much as h moves, and leaves what it gives up to others or deletes it. */
  ghost predicate ShrinkStep(s: State, s': State, h: Handle) {
    && h in s.refs && h in s'.refs && s'.refs == s.refs[h := s'.refs[h]]
    && var r, r' := s.refs[h], s'.refs[h];
    && Shrinks(r, r') && DeletesOwn(s, s', r) && RefOk(s', r')
    && (r'.phase.Sole() && !r.phase.Sole() ==> Unshared(s, h))
    && (forall c :: c in s'.cells ==> s'.cells[c] == s.cells[c] + Weight(r', c) - Weight(r, c))
    && (r.phase.UsesCell() && !r'.phase.UsesCell() && r.cell in s'.cells ==> Shared(s, h))
    && (r.phase.UsesObj() && !r'.phase.UsesObj() && r.obj in s'.objs ==> r.phase.UsesCell() && Shared(s, h))
    && (r.phase.HasCopy() && !r'.phase.HasCopy() ==> r.phase.tmp !in s'.objs)
  }

  lemma ShrinkHeld(s: State, s': State, h: Handle)
    requires Pairwise(s.refs) && CellsHeld(s.cells, s.refs) && ObjsHeld(s.objs, s.refs)
    requires ShrinkStep(s, s', h)
    ensures CellsHeld(s'.cells, s'.refs) && ObjsHeld(s'.objs, s'.refs)
  {
    if s.refs[h].phase.UsesCell() && Shared(s, h) {
      var g :| g in s.refs && g != h && HoldsCell(s.refs[g], s.refs[h].cell);
      assert Compatible(s.refs[h], s.refs[g]);
      assert HoldsObj(s.refs[g], s.refs[h].obj);
    }
    HeldUpdate(s, s', h, s'.refs[h]);
  }

  lemma ShrinkKeepsInv(s: State, s': State, h: Handle)
    requires Inv(s) && ShrinkStep(s, s', h)
    ensures Inv(s')
  {
    var r, r' := s.refs[h], s'.refs[h];
    forall g | g in s.refs && g != h
      ensures RefOk(s', s.refs[g]) && Compatible(r', s.refs[g]) && Compatible(s.refs[g], r')
    {
      ShrinkCompatible(r, r', s.refs[g]);
      DeletesOwnKeepsOther(s, s', r, s.refs[g]);
    }
    OthersKept(s, s', h, r');
    CountsUpdate(s, s', h, r');
    ShrinkHeld(s, s', h);
  }

  /** A count above one has another handle behind it; a count of one has none. */
  lemma CountTellsOthers(s: State, h: Handle)
    requires Inv(s) && h in s.refs && s.refs[h].phase.Counted()
    ensures CanDec(s, h)
    ensures if s.cells[s.refs[h].cell] == 1 then Unshared(s, h) else Shared(s, h)
  {
    CountedIsPositive(s, h);
    var cell := s.refs[h].cell;
    var cs := Counters(s.refs, cell);
    if s.cells[cell] == 1 {
      forall g | g in s.refs && g != h ensures !HoldsCell(s.refs[g], cell) {
        assert Compatible(s.refs[h], s.refs[g]) && g !in cs;
      }
    } else {
      assert h in cs && |cs - {h}| > 0;
      var g :| g in cs - {h};
    }
  }

  lemma TestShrinks(s: State, h: Handle)
    requires CanDec(s, h) && InPhase(s, h, Idle) && s.refs[h].obj != NULL && RefOk(s, s.refs[h])
    requires s.cells[s.refs[h].cell] == 1 ==> Unshared(s, h)
    ensures ShrinkStep(s, Test(s, h), h)
  {
  }

  lemma DropDecShrinks(s: State, h: Handle)
    requires CanDec(s, h) && InPhase(s, h, Idle) && RefOk(s, s.refs[h])
    requires if s.cells[s.refs[h].cell] == 1 then Unshared(s, h) else Shared(s, h)
    ensures ShrinkStep(s, DropDec(s, h), h)
  {
  }

  lemma DecShrinks(s: State, h: Handle)
    requires CanDec(s, h) && s.refs[h].phase.Cloned? && RefOk(s, s.refs[h])
    requires if s.cells[s.refs[h].cell] == 1 then Unshared(s, h) else Shared(s, h)
    ensures ShrinkStep(s, Dec(s, h), h)
  {
  }

  lemma DeletesShrink(s: State, h: Handle)
    requires h in s.refs && RefOk(s, s.refs[h]) && NULL !in s.objs
    ensures s.refs[h].phase.LastOut? ==> ShrinkStep(s, DeleteCell(s, h), h)
    ensures s.refs[h].phase.CellGone? ==> ShrinkStep(s, DeleteObj(s, h), h)
  {
  }

  lemma WriteLockEndShrinks(s: State, h: Handle)
    requires h in s.refs && RefOk(s, s.refs[h])
    ensures s.refs[h].phase.Alone? ==> ShrinkStep(s, IncBack(s, h), h)
    ensures s.refs[h].phase.Discarding? ==> ShrinkStep(s, DeleteCopy(s, h), h)
    ensures s.refs[h].phase.Writing? ==> ShrinkStep(s, EndWrite(s, h), h)
  {
  }

  // The other steps allocate, share or write.

  lemma CopyKeepsInv(s: State, h: Handle, from: Handle)
    requires Inv(s) && h !in s.refs && InPhase(s, from, Idle)
    ensures s.refs[from].cell in s.cells && Inv(Copy(s, h, from))
  {
    var s' := Copy(s, h, from);
    forall g | g in s.refs && g != h
      ensures RefOk(s', s.refs[g]) && Compatible(s'.refs[h], s.refs[g]) && Compatible(s.refs[g], s'.refs[h])
    {
      assert g != from ==> Compatible(s.refs[from], s.refs[g]) && Compatible(s.refs[g], s.refs[from]);
      assert RefOk(s, s.refs[g]);
    }
    OthersKept(s, s', h, s'.refs[h]);
    CountsUpdate(s, s', h, s'.refs[h]);
    HeldUpdate(s, s', h, s'.refs[h]);
  }

  lemma EndCloneKeepsInv(s: State, h: Handle, tmp: Addr)
    requires Inv(s) && InPhase(s, h, Cloning) && tmp !in s.objs && tmp != NULL
    ensures s.refs[h].obj in s.objs && Inv(EndClone(s, h, tmp))
  {
    var s' := EndClone(s, h, tmp);
    forall g | g in s.refs && g != h
      ensures RefOk(s', s.refs[g]) && Compatible(s'.refs[h], s.refs[g]) && Compatible(s.refs[g], s'.refs[h])
    {
      assert Compatible(s.refs[h], s.refs[g]) && Compatible(s.refs[g], s.refs[h]);
      assert RefOk(s, s.refs[g]);
    }
    OthersKept(s, s', h, s'.refs[h]);
    CountsUpdate(s, s', h, s'.refs[h]);
    HeldUpdate(s, s', h, s'.refs[h]);
  }

  lemma ReplaceKeepsInv(s: State, h: Handle, cell: Addr)
    requires Inv(s) && h in s.refs && s.refs[h].phase.Left? && cell !in s.cells
    ensures Inv(Replace(s, h, cell))
  {
    var s' := Replace(s, h, cell);
    forall g | g in s.refs && g != h
      ensures RefOk(s', s.refs[g]) && Compatible(s'.refs[h], s.refs[g]) && Compatible(s.refs[g], s'.refs[h])
    {
      assert Compatible(s.refs[h], s.refs[g]) && Compatible(s.refs[g], s.refs[h]);
      assert RefOk(s, s.refs[g]);
    }
    OthersKept(s, s', h, s'.refs[h]);
    CountsUpdate(s, s', h, s'.refs[h]);
    HeldUpdate(s, s', h, s'.refs[h]);
  }

  lemma WriteKeepsInv(s: State, h: Handle, value: Value)
    requires Inv(s) && InPhase(s, h, Writing)
    ensures s.refs[h].obj in s.objs && !BeingCloned(s, s.refs[h].obj)
    ensures Inv(Write(s, h, value))
  {
    forall g | g in s.refs && g != h
      ensures !(s.refs[g].phase.UsesObj() && s.refs[g].obj == s.refs[h].obj)
    {
      assert Compatible(s.refs[h], s.refs[g]);
    }
    var s' := Write(s, h, value);
    forall g | g in s.refs ensures RefOk(s', s.refs[g]) {
      assert RefOk(s, s.refs[g]);
      assert g != h ==> Compatible(s.refs[g], s.refs[h]);
    }
  }
}
