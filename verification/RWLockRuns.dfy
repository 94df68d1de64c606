/** Whole runs of the read/write lock: safety, accounting of holds, and freedom from deadlock. */
module RWLockRuns {
  import opened Common
  import opened RWLockSpec
  import opened RWLockSafety

  // ----- runs ----------------------------------------------------------------------------

  ghost predicate IsRun(s: Lock, ops: seq<Op>)
    decreases |ops|
  {
    ops == [] || (Enabled(s, ops[0]) && IsRun(Step(s, ops[0]).0, ops[1..]))
  }

  ghost function Final(s: Lock, ops: seq<Op>): Lock
    requires IsRun(s, ops)
    decreases |ops|
  {
    if ops == [] then s else Final(Step(s, ops[0]).0, ops[1..])
  }

  /** Every reachable state satisfies the invariant. */
  lemma {:induction false} RunKeepsInv(s: Lock, ops: seq<Op>)
    requires Inv(s) && IsRun(s, ops)
    ensures Inv(Final(s, ops))
    decreases |ops|
  {
    if ops != [] {
      StepKeepsInv(s, ops[0]);
      RunKeepsInv(Step(s, ops[0]).0, ops[1..]);
    }
  }

  lemma {:induction false} RunsCompose(s: Lock, a: seq<Op>, b: seq<Op>)
    requires IsRun(s, a) && IsRun(Final(s, a), b)
    ensures IsRun(s, a + b) && Final(s, a + b) == Final(Final(s, a), b)
    ensures Helpful(s, a) && Helpful(Final(s, a), b) ==> Helpful(s, a + b)
    decreases |a|
  {
    if a == [] {
      assert a + b == b;
    } else {
      assert (a + b)[0] == a[0] && (a + b)[1..] == a[1..] + b;
      RunsCompose(Step(s, a[0]).0, a[1..], b);
    }
  }

  // ----- accounting ----------------------------------------------------------------------

  function Held(s: Lock, id: Id, mode: Mode): nat {
    if mode == Read then Entry(s, id).readCount else Entry(s, id).writeCount
  }

  function Change(op: Op, outcome: Outcome, id: Id, mode: Mode): int {
    if op.id != id then 0
    else if outcome == Acquired(mode) then 1
    else if outcome == Released(mode) then -1
    else 0
  }

  /** Successful acquires minus successful releases by id along a run. */
  ghost function Balance(s: Lock, ops: seq<Op>, id: Id, mode: Mode): int
    requires IsRun(s, ops)
    decreases |ops|
  {
    if ops == [] then 0
    else Change(ops[0], Step(s, ops[0]).1, id, mode) + Balance(Step(s, ops[0]).0, ops[1..], id, mode)
  }

  lemma StepAccounts(s: Lock, op: Op, id: Id, mode: Mode)
    requires WellFormed(s) && Enabled(s, op)
    ensures Held(Step(s, op).0, id, mode) == Held(s, id, mode) + Change(op, Step(s, op).1, id, mode)
  {
  }

  /** Over every run, what an id holds is what it acquired and did not release. */
  lemma {:induction false} HoldsAreAcquiresMinusReleases(s: Lock, ops: seq<Op>, id: Id, mode: Mode)
    requires Inv(s) && IsRun(s, ops)
    ensures Held(Final(s, ops), id, mode) == Held(s, id, mode) + Balance(s, ops, id, mode)
    decreases |ops|
  {
    if ops != [] {
      StepAccounts(s, ops[0], id, mode);
      StepKeepsInv(s, ops[0]);
      HoldsAreAcquiresMinusReleases(Step(s, ops[0]).0, ops[1..], id, mode);
    }
  }

  /** No call of id succeeds along the run: its calls block, time out or are refused. */
  ghost predicate NoSuccess(s: Lock, ops: seq<Op>, id: Id)
    requires IsRun(s, ops)
    decreases |ops|
  {
    ops == [] ||
    (&& (ops[0].id == id ==> !Step(s, ops[0]).1.Acquired? && !Step(s, ops[0]).1.Released?)
     && NoSuccess(Step(s, ops[0]).0, ops[1..], id))
  }

  lemma {:induction false} NoSuccessNoBalance(s: Lock, ops: seq<Op>, id: Id, mode: Mode)
    requires IsRun(s, ops) && NoSuccess(s, ops, id)
    ensures Balance(s, ops, id, mode) == 0
    decreases |ops|
  {
    if ops != [] {
      NoSuccessNoBalance(Step(s, ops[0]).0, ops[1..], id, mode);
    }
  }

  /** From the start of a call that times out, or is refused, to its end, whatever others do, the
      id's entry in the locker map ends as it was: the same counts, present or absent. */
  lemma FailedCallsLeaveEntry(s: Lock, ops: seq<Op>, id: Id)
    requires Inv(s) && IsRun(s, ops) && NoSuccess(s, ops, id)
    ensures Entry(Final(s, ops), id) == Entry(s, id)
    ensures id in Final(s, ops).lockers <==> id in s.lockers
  {
    NoSuccessNoBalance(s, ops, id, Read);
    NoSuccessNoBalance(s, ops, id, Write);
    HoldsAreAcquiresMinusReleases(s, ops, id, Read);
    HoldsAreAcquiresMinusReleases(s, ops, id, Write);
    RunKeepsInv(s, ops);
  }

  /** DeadlockException is raised exactly when a pure reader asks to write while another id is in
      the middle of an upgrade, which is the one way a reader can see the writer count at 1. */
  lemma DeadlockIffOtherUpgrade(s: Lock, op: Op)
    requires Inv(s) && Enabled(s, op)
    ensures Step(s, op).1 == Deadlocked <==>
            && op.AcquireWriteOp? && Entry(s, op.id).IsReader() && !Entry(s, op.id).IsWriter()
            && exists other :: other != op.id && IsUpgrading(s, other)
    ensures op.AcquireWriteOp? && Entry(s, op.id).IsReader() && !Entry(s, op.id).IsWriter() ==>
            ((exists other :: other != op.id && IsUpgrading(s, other)) <==> Writers(s) != {})
    ensures Step(s, op).1 == Deadlocked ==> Step(s, op).0 == s
  {
    if op.AcquireWriteOp? && Entry(s, op.id).IsReader() && !Entry(s, op.id).IsWriter() {
      if w :| w in Writers(s) {
        assert w in Holders(s) ==> w == op.id;
        assert IsUpgrading(s, w) && w != op.id;
      }
      if other :| other != op.id && IsUpgrading(s, other) {
        assert other in Writers(s);
      }
    }
  }

  /** When everything is released and nobody waits, the lock is as the constructor made it. */
  lemma QuiescentIsInit(s: Lock)
    requires Inv(s) && s.lockers == map[] && s.waiters == map[]
    ensures s == INIT
  {
    assert Holders(s) == {};
  }

  // ----- progress ------------------------------------------------------------------------

  /** A signalled call that will return with its lock as soon as it runs. */
  ghost predicate CanFinish(s: Lock, id: Id) {
    && id in s.waiters && s.waiters[id].signalled && Enabled(s, WakeOp(id))
    && Wake(s, id).1.Acquired?
  }

  /** If calls wait and no id could release anything, some signalled call can take its lock. */
  lemma NeverStuck(s: Lock)
    requires Inv(s) && s.waiters != map[]
    requires forall id :: id in s.lockers ==> id in s.waiters
    ensures exists id :: CanFinish(s, id)
  {
    LockersArePartitioned(s);
    assert Holders(s) == {};
    assert Readers(s) == {};
    if u :| u in Writers(s) {
      assert IsUpgrading(s, u);
      assert CanFinish(s, u);
    } else if w :| w in s.waiters && s.waiters[w].kind == NewWriter {
      var v :| v in s.waiters && s.waiters[v] == Waiter(NewWriter, true);
      assert CanFinish(s, v);
    } else {
      assert s.lockers == map[] && s.canRead;
      var r :| r in s.waiters;
      assert s.waiters[r].kind == NewReader;
      assert CanFinish(s, r);
    }
  }

  /** In particular, with nothing held the calls that wait do not wait for ever. */
  lemma NothingHeldSomeoneFinishes(s: Lock)
    requires Inv(s) && s.waiters != map[] && s.lockers == map[]
    ensures exists id :: CanFinish(s, id)
  {
    NeverStuck(s);
  }

  /** Steps that are bound to happen: holders give up their locks, signalled calls return with
      theirs. No timeout, no spurious wakeup and no new call is among them. */
  ghost predicate HelpfulStep(s: Lock, op: Op)
    requires Enabled(s, op)
  {
    match op
    case WakeOp(id) => s.waiters[id].signalled && Step(s, op).1.Acquired?
    case ReleaseReadOp(_) => Step(s, op).1.Released?
    case ReleaseWriteOp(_, _) => Step(s, op).1.Released?
    case _ => false
  }

  ghost predicate Helpful(s: Lock, ops: seq<Op>)
    requires IsRun(s, ops)
    decreases |ops|
  {
    ops == [] || (HelpfulStep(s, ops[0]) && Helpful(Step(s, ops[0]).0, ops[1..]))
  }

  lemma SomePick(waiters: map<Id, Waiter>) returns (woken: Option<Id>)
    ensures IsPick(waiters, woken)
  {
    if w :| w in SleepingWriters(waiters) {
      woken := Some(w);
    } else {
      woken := None;
    }
  }

  lemma OneRelease(s: Lock, id: Id) returns (op: Op)
    requires Inv(s) && id in s.lockers && id !in s.waiters
    ensures Enabled(s, op) && HelpfulStep(s, op)
    ensures Step(s, op).0.waiters.Keys == s.waiters.Keys
    ensures var e, e' := Entry(s, id), Entry(Step(s, op).0, id);
            e'.readCount + e'.writeCount < e.readCount + e.writeCount
    ensures Step(s, op).0.lockers - {id} == s.lockers - {id}
  {
    if s.lockers[id].IsWriter() {
      var woken := SomePick(s.waiters);
      op := ReleaseWriteOp(id, woken);
    } else {
      op := ReleaseReadOp(id);
    }
  }

  lemma {:induction false} ReleaseEverything(s: Lock, id: Id) returns (ops: seq<Op>)
    requires Inv(s) && id in s.lockers && id !in s.waiters
    ensures IsRun(s, ops) && Helpful(s, ops)
    ensures Final(s, ops).waiters.Keys == s.waiters.Keys
    ensures Final(s, ops).lockers.Keys == s.lockers.Keys - {id}
    decreases s.lockers[id].readCount + s.lockers[id].writeCount
  {
    var op := OneRelease(s, id);
    var s' := Step(s, op).0;
    StepKeepsInv(s, op);
    var rest := [];
    if id in s'.lockers {
      rest := ReleaseEverything(s', id);
      assert s'.lockers - {id} == s.lockers - {id};
    } else {
      assert s'.lockers == s'.lockers - {id};
    }
    ops := [op] + rest;
    assert ops[1..] == rest;
  }

  /** Helpful steps alone lead from s back to the constructor's state. */
  ghost predicate Drains(s: Lock, ops: seq<Op>) {
    IsRun(s, ops) && Helpful(s, ops) && Final(s, ops) == INIT
  }

  lemma DrainsAfterStep(s: Lock, op: Op, rest: seq<Op>)
    requires Enabled(s, op) && HelpfulStep(s, op) && Drains(Step(s, op).0, rest)
    ensures Drains(s, [op] + rest)
  {
    assert ([op] + rest)[1..] == rest;
  }

  lemma OneFinishes(s: Lock) returns (op: Op)
    requires Inv(s) && s.waiters != map[]
    requires forall id :: id in s.lockers ==> id in s.waiters
    ensures Enabled(s, op) && HelpfulStep(s, op)
    ensures |Step(s, op).0.waiters.Keys| < |s.waiters.Keys|
  {
    NeverStuck(s);
    var id :| CanFinish(s, id);
    op := WakeOp(id);
    assert Step(s, op).0.waiters.Keys == s.waiters.Keys - {id};
  }

  lemma {:induction false} DrainFrom(s: Lock) returns (ops: seq<Op>)
    requires Inv(s)
    ensures Drains(s, ops)
    decreases |s.waiters.Keys|, |s.lockers.Keys|
  {
    if id :| id in s.lockers && id !in s.waiters {
      var first := ReleaseEverything(s, id);
      RunKeepsInv(s, first);
      var rest := DrainFrom(Final(s, first));
      RunsCompose(s, first, rest);
      ops := first + rest;
    } else if s.waiters != map[] {
      var op := OneFinishes(s);
      StepKeepsInv(s, op);
      var rest := DrainFrom(Step(s, op).0);
      DrainsAfterStep(s, op, rest);
      ops := [op] + rest;
    } else {
      QuiescentIsInit(s);
      ops := [];
    }
  }

  /** From every reachable state, letting holders release and signalled calls run, and nothing
      else, can bring every waiting call back with its lock and the lock back to its initial
      state: no reachable state is a deadlock. */
  lemma DeadlockFree(history: seq<Op>)
    requires IsRun(INIT, history)
    ensures exists ops :: Drains(Final(INIT, history), ops)
  {
    InitInv();
    RunKeepsInv(INIT, history);
    var ops := DrainFrom(Final(INIT, history));
  }
}
