/** Whatever the order in which holders release and signalled calls run: it ends, and it ends with the lock
    as the constructor made it. */
module RWLockSchedules {
  import opened Common
  import opened RWLockSpec
  import opened RWLockSafety
  import opened RWLockRuns

  /** A holder gives up a lock, or a signalled call runs again; it may well go back to sleep. No timeout, no
      spurious wakeup and no new call is among these steps. */
  ghost predicate ProgressStep(s: Lock, op: Op)
    requires Enabled(s, op)
  {
    match op
    case WakeOp(id) => s.waiters[id].signalled
    case ReleaseReadOp(_) => Step(s, op).1.Released?
    case ReleaseWriteOp(_, _) => Step(s, op).1.Released?
    case _ => false
  }

  ghost predicate IsSchedule(s: Lock, ops: seq<Op>)
    decreases |ops|
  {
    ops == [] ||
    (Enabled(s, ops[0]) && ProgressStep(s, ops[0]) && IsSchedule(Step(s, ops[0]).0, ops[1..]))
  }

  /** No step is left to take. */
  ghost predicate IsDone(s: Lock) {
    forall op :: Enabled(s, op) ==> !ProgressStep(s, op)
  }

  // ----- what the steps use up -----------------------------------------------------------

  function Count(lockers: map<Id, LockerInfo>, id: Id): nat {
    if id in lockers then lockers[id].readCount + lockers[id].writeCount else 0
  }

  /** One element for each lock that is held, recursive ones counted. */
  function Units(lockers: map<Id, LockerInfo>): set<(Id, nat)> {
    set id: Id, k: nat | id in lockers && k < lockers[id].readCount + lockers[id].writeCount :: (id, k)
  }

  function Signalled(waiters: map<Id, Waiter>): set<Id> {
    set id | id in waiters && waiters[id].signalled
  }

  /** A waiting call weighs more than the lock it takes. */
  function Weight(s: Lock): nat {
    2 * |s.waiters.Keys| + |Units(s.lockers)|
  }

  /** What bounds a schedule: a step that takes from the weight may signal up to n calls. */
  function Budget(s: Lock, n: nat): nat {
    Weight(s) * (n + 1) + |Signalled(s.waiters)|
  }

  lemma UnitsIn(lockers: map<Id, LockerInfo>, id: Id, k: nat)
    ensures (id, k) in Units(lockers) <==> k < Count(lockers, id)
  {
  }

  lemma OneUnit(more: map<Id, LockerInfo>, less: map<Id, LockerInfo>, id: Id)
    requires more - {id} == less - {id} && Count(more, id) == Count(less, id) + 1
    ensures |Units(more)| == |Units(less)| + 1
  {
    forall x, k: nat | x != id ensures (x, k) in Units(more) <==> (x, k) in Units(less) {
      assert x in more <==> x in more - {id};
      assert x in less <==> x in less - {id};
      assert x in more ==> more[x] == (more - {id})[x] == less[x];
    }
    var unit := (id, Count(less, id));
    UnitsIn(less, id, Count(less, id));
    assert forall k: nat :: (id, k) in Units(more) <==> k < Count(more, id);
    assert forall k: nat :: (id, k) in Units(less) <==> k < Count(less, id);
    assert Units(more) == Units(less) + {unit};
  }

  lemma SignalledAreFew(waiters: map<Id, Waiter>)
    ensures |Signalled(waiters)| <= |waiters.Keys|
  {
    Subset(Signalled(waiters), waiters.Keys);
  }

  lemma {:induction false} Subset(a: set<Id>, b: set<Id>)
    requires a <= b
    ensures |a| <= |b|
  {
    if a != {} {
      var x :| x in a;
      Subset(a - {x}, b - {x});
    }
  }

  /** A call that wakes in vain has used up its signal. */
  lemma BlockedUsesSignal(s: Lock, id: Id)
    requires Inv(s) && Enabled(s, WakeOp(id)) && s.waiters[id].signalled && !Wake(s, id).1.Acquired?
    ensures var s' := Wake(s, id).0;
            && Weight(s') == Weight(s) && s'.waiters.Keys == s.waiters.Keys
            && |Signalled(s'.waiters)| < |Signalled(s.waiters)|
  {
    var s' := Wake(s, id).0;
    assert s'.waiters == s.waiters[id := Waiter(s.waiters[id].kind, false)];
    assert s'.waiters.Keys == s.waiters.Keys;
    assert Signalled(s'.waiters) == Signalled(s.waiters) - {id};
  }

  /** A call that takes its lock is a waiting call less for a lock more. */
  lemma AcquiredTakesWeight(s: Lock, id: Id)
    requires Inv(s) && Enabled(s, WakeOp(id)) && Wake(s, id).1.Acquired?
    ensures var s' := Wake(s, id).0;
            Weight(s') == Weight(s) - 1 && |s'.waiters.Keys| <= |s.waiters.Keys|
  {
    var s' := Wake(s, id).0;
    assert s'.waiters.Keys == s.waiters.Keys - {id};
    assert s'.lockers - {id} == s.lockers - {id};
    OneUnit(s'.lockers, s.lockers, id);
  }

  lemma ReadReleaseLocks(s: Lock, id: Id)
    requires Inv(s) && ReleaseRead(s, id).1.Released?
    ensures var s' := ReleaseRead(s, id).0;
            && s'.waiters.Keys == s.waiters.Keys && s'.lockers - {id} == s.lockers - {id}
            && Count(s.lockers, id) == Count(s'.lockers, id) + 1
  {
  }

  lemma WriteReleaseLocks(s: Lock, id: Id, woken: Option<Id>)
    requires Inv(s) && Enabled(s, ReleaseWriteOp(id, woken)) && ReleaseWrite(s, id, woken).1.Released?
    ensures var s' := ReleaseWrite(s, id, woken).0;
            && s'.waiters.Keys == s.waiters.Keys && s'.lockers - {id} == s.lockers - {id}
            && Count(s.lockers, id) == Count(s'.lockers, id) + 1
  {
  }

  /** A release takes away one of the locks that are held. */
  lemma ReleasedTakesWeight(s: Lock, op: Op)
    requires Inv(s) && Enabled(s, op) && Step(s, op).1.Released?
    ensures var s' := Step(s, op).0;
            Weight(s') == Weight(s) - 1 && s'.waiters.Keys == s.waiters.Keys
  {
    if op.ReleaseReadOp? {
      ReadReleaseLocks(s, op.id);
    } else {
      WriteReleaseLocks(s, op.id, op.woken);
    }
    OneUnit(s.lockers, Step(s, op).0.lockers, op.id);
  }

  lemma LighterIsCheaper(w: nat, n: nat, signalled: nat, signalled': nat)
    requires w > 0 && signalled' <= n
    ensures (w - 1) * (n + 1) + signalled' < w * (n + 1) + signalled
  {
    assert (w - 1) * (n + 1) == w * (n + 1) - (n + 1);
  }

  lemma ProgressCosts(s: Lock, op: Op, n: nat)
    requires Inv(s) && Enabled(s, op) && ProgressStep(s, op) && |s.waiters.Keys| <= n
    ensures var s' := Step(s, op).0; Budget(s', n) < Budget(s, n) && |s'.waiters.Keys| <= n
  {
    var s' := Step(s, op).0;
    SignalledAreFew(s'.waiters);
    if op.WakeOp? && !Wake(s, op.id).1.Acquired? {
      BlockedUsesSignal(s, op.id);
    } else {
      if op.WakeOp? {
        AcquiredTakesWeight(s, op.id);
      } else {
        ReleasedTakesWeight(s, op);
      }
      LighterIsCheaper(Weight(s), n, |Signalled(s.waiters)|, |Signalled(s'.waiters)|);
    }
  }

  lemma {:induction false} ScheduleIsShort(s: Lock, ops: seq<Op>, n: nat)
    requires Inv(s) && IsSchedule(s, ops) && |s.waiters.Keys| <= n
    ensures IsRun(s, ops) && |ops| <= Budget(s, n)
    decreases |ops|
  {
    if ops != [] {
      ProgressCosts(s, ops[0], n);
      StepKeepsInv(s, ops[0]);
      ScheduleIsShort(Step(s, ops[0]).0, ops[1..], n);
    }
  }

  /** As long as a lock is held or a call waits there is a step to take. */
  lemma DoneIsInit(s: Lock)
    requires Inv(s)
    ensures IsDone(s) <==> s == INIT
  {
    if id :| id in s.lockers && id !in s.waiters {
      var op := OneRelease(s, id);
      assert ProgressStep(s, op);
    } else if s.waiters != map[] {
      NeverStuck(s);
      var id :| CanFinish(s, id);
      assert ProgressStep(s, WakeOp(id));
    } else {
      QuiescentIsInit(s);
    }
  }

  /** From every reachable state, in whatever order holders release and signalled calls run, a schedule has a
      bounded number of steps, and it cannot go on exactly if the lock is back in its initial state, where no
      call waits and no lock is held. As no call has timed out, those that waited returned with their locks. */
  lemma EveryScheduleDrains(history: seq<Op>, ops: seq<Op>)
    requires IsRun(INIT, history) && IsSchedule(Final(INIT, history), ops)
    ensures var s := Final(INIT, history);
            && IsRun(s, ops)
            && |ops| <= Budget(s, |s.waiters.Keys|)
            && (IsDone(Final(s, ops)) <==> Final(s, ops) == INIT)
  {
    var s := Final(INIT, history);
    InitInv();
    RunKeepsInv(INIT, history);
    ScheduleIsShort(s, ops, |s.waiters.Keys|);
    RunKeepsInv(s, ops);
    DoneIsInit(Final(s, ops));
  }
}
