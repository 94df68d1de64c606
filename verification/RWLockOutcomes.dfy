/** Which calls get in, which wait and which are refused, said of who holds what; and what a step does to
    the flag that shuts readers out and to the calls that wait. */
module RWLockOutcomes {
  import opened Common
  import opened RWLockSpec
  import opened RWLockSafety
  import RWLockRuns

  ghost predicate Holds(s: Lock, id: Id, mode: Mode) {
    RWLockRuns.Held(s, id, mode) > 0
  }

  ghost predicate HoldsAny(s: Lock, id: Id) {
    Holds(s, id, Read) || Holds(s, id, Write)
  }

  /** An upgrading reader counts as a writer. */
  ghost predicate NobodyWrites(s: Lock) {
    forall id :: !Holds(s, id, Write) && !IsUpgrading(s, id)
  }

  /** Every id that holds a lock writes or upgrades. */
  ghost predicate NobodyJustReads(s: Lock) {
    forall id :: HoldsAny(s, id) ==> Holds(s, id, Write) || IsUpgrading(s, id)
  }

  ghost predicate NoOtherHolds(s: Lock, id: Id) {
    forall other :: other != id ==> !HoldsAny(s, other)
  }

  ghost predicate OtherUpgrades(s: Lock, id: Id) {
    exists other :: other != id && IsUpgrading(s, other)
  }

  // ----- outcomes ------------------------------------------------------------------------

  lemma HoldersAreLockers(s: Lock)
    requires WellFormed(s)
    ensures forall id :: HoldsAny(s, id) <==> id in s.lockers
    ensures forall id :: Holds(s, id, Write) <==> id in Holders(s)
  {
  }

  lemma WritersAreWriters(s: Lock)
    requires WellFormed(s)
    ensures NobodyWrites(s) <==> Writers(s) == {}
  {
    HoldersAreLockers(s);
    if NobodyWrites(s) {
      forall id ensures id !in Writers(s) {
        assert !Holds(s, id, Write) && !IsUpgrading(s, id);
      }
    } else {
      var id :| Holds(s, id, Write) || IsUpgrading(s, id);
      assert id in Writers(s);
    }
  }

  lemma ReadersAreReaders(s: Lock)
    requires WellFormed(s)
    ensures NobodyJustReads(s) <==> Readers(s) == {}
  {
    HoldersAreLockers(s);
    if NobodyJustReads(s) {
      forall id ensures id !in Readers(s) {
        assert HoldsAny(s, id) ==> Holds(s, id, Write) || IsUpgrading(s, id);
      }
    } else {
      var id :| HoldsAny(s, id) && !Holds(s, id, Write) && !IsUpgrading(s, id);
      assert id in Readers(s);
    }
  }

  /** A read request gets in at once exactly if the id holds a lock already, of whatever kind, or readers
      are let in and nobody writes or upgrades; otherwise it waits. */
  lemma ReadOutcome(s: Lock, id: Id)
    requires Inv(s) && Enabled(s, AcquireReadOp(id))
    ensures Step(s, AcquireReadOp(id)).1 ==
            if HoldsAny(s, id) || (s.canRead && NobodyWrites(s)) then Acquired(Read) else Blocked
  {
    HoldersAreLockers(s);
    WritersAreWriters(s);
  }

  lemma OnlyHolder(s: Lock, id: Id)
    requires WellFormed(s)
    ensures NoOtherHolds(s, id) <==> s.lockers.Keys <= {id}
  {
    HoldersAreLockers(s);
    if NoOtherHolds(s, id) {
      forall x | x in s.lockers ensures x == id {
        assert HoldsAny(s, x);
      }
    }
  }

  /** A write request gets in at once exactly if the id writes already or no other id holds a lock. Of the
      others, a reader is refused while another reader upgrades; the rest wait. */
  lemma WriteOutcome(s: Lock, id: Id)
    requires Inv(s) && Enabled(s, AcquireWriteOp(id))
    ensures Step(s, AcquireWriteOp(id)).1 ==
            if Holds(s, id, Write) || NoOtherHolds(s, id) then Acquired(Write)
            else if Holds(s, id, Read) && OtherUpgrades(s, id) then Deadlocked
            else Blocked
  {
    HoldersAreLockers(s);
    OnlyHolder(s, id);
    RWLockRuns.DeadlockIffOtherUpgrade(s, AcquireWriteOp(id));
    if id !in s.lockers {
      assert s.lockers == map[] <==> s.lockers.Keys <= {id};
    } else if !s.lockers[id].IsWriter() && !OtherUpgrades(s, id) {
      UpgradeGetsIn(s, id);
    } else if !s.lockers[id].IsWriter() {
      var other :| other != id && IsUpgrading(s, other);
      assert other in s.lockers;
    }
  }

  lemma UpgradeGetsIn(s: Lock, id: Id)
    requires Inv(s) && id in s.lockers && !s.lockers[id].IsWriter() && !OtherUpgrades(s, id)
    ensures Readers(s) <= {id} <==> s.lockers.Keys <= {id}
  {
    forall x | x in s.lockers && x != id ensures x in Readers(s) {
      assert !IsUpgrading(s, x);
      assert x in Holders(s) ==> s.lockers.Keys == {x};
    }
  }

  /** A call that wakes up gets in exactly if a new one would. */
  lemma WakeOutcome(s: Lock, id: Id)
    requires Inv(s) && Enabled(s, WakeOp(id))
    ensures Step(s, WakeOp(id)).1 ==
            if s.waiters[id].kind == NewReader then
              if s.canRead && NobodyWrites(s) then Acquired(Read) else Blocked
            else
              if NoOtherHolds(s, id) then Acquired(Write) else Blocked
  {
    WritersAreWriters(s);
    OnlyHolder(s, id);
    if s.waiters[id].kind == Upgrader {
      assert id in Writers(s);
      forall other | IsUpgrading(s, other) ensures other == id {
        assert other in Writers(s);
      }
      UpgradeGetsIn(s, id);
    } else {
      assert s.lockers == map[] <==> s.lockers.Keys <= {id};
    }
  }

  /** A release succeeds exactly if the id holds such a lock; and nothing but the end of a wait times out. */
  lemma ReleaseOutcome(s: Lock, op: Op)
    requires Inv(s) && Enabled(s, op)
    ensures op.ReleaseReadOp? ==>
              Step(s, op).1 == if Holds(s, op.id, Read) then Released(Read) else NotHeld
    ensures op.ReleaseWriteOp? ==>
              Step(s, op).1 == if Holds(s, op.id, Write) then Released(Write) else NotHeld
    ensures Step(s, op).1 == TimedOut <==> op.TimeOutOp?
  {
  }

  // ----- effects -------------------------------------------------------------------------

  ghost predicate GaveUpWriting(s: Lock, op: Op)
    requires Enabled(s, op)
  {
    Step(s, op).1 == Released(Write) && !Holds(Step(s, op).0, op.id, Write)
  }

  ghost predicate GaveUpWaiting(s: Lock, op: Op) {
    op.TimeOutOp? && op.id in s.waiters && s.waiters[op.id].kind != NewReader
  }

  /** Is this the step of a call for a write lock, as new or as returning from its wait? */
  ghost predicate AsksToWrite(s: Lock, op: Op) {
    op.AcquireWriteOp? || (op.WakeOp? && op.id in s.waiters && s.waiters[op.id].kind != NewReader)
  }

  /** Readers are shut out by a call for a write lock that has to wait, and by a new writer; they are let in
      again when a writer downgrades or finishes and when a call for a write lock times out. */
  lemma WhenReadersMayEnter(s: Lock, op: Op)
    requires Inv(s) && Enabled(s, op)
    ensures Step(s, op).0.canRead <==>
            || GaveUpWriting(s, op) || GaveUpWaiting(s, op)
            || (s.canRead && !(AsksToWrite(s, op) && Step(s, op).1 == Blocked)
                && !(AsksToWrite(s, op) && Step(s, op).1 == Acquired(Write) && !HoldsAny(s, op.id)))
  {
    HoldersAreLockers(s);
  }

  /** So after a downgrade, or when the last writer to wait gives up, every read request gets in. */
  lemma ReadersEnterAgain(s: Lock, op: Op, reader: Id)
    requires Inv(s) && Enabled(s, op) && (GaveUpWriting(s, op) || GaveUpWaiting(s, op))
    requires reader !in Step(s, op).0.waiters
    ensures var s' := Step(s, op).0;
            && Inv(s')
            && Step(s', AcquireReadOp(reader)).1 ==
                 if HoldsAny(s', reader) || NobodyWrites(s') then Acquired(Read) else Blocked
    ensures GaveUpWriting(s, op) ==> NobodyWrites(Step(s, op).0)
  {
    var s' := Step(s, op).0;
    StepKeepsInv(s, op);
    WhenReadersMayEnter(s, op);
    ReadOutcome(s', reader);
    if GaveUpWriting(s, op) {
      WritersAreWriters(s');
      assert op.id in Holders(s) && op.id in Writers(s);
      assert forall w :: w in Writers(s') ==> w in Writers(s);
      assert Writers(s') == {};
    }
  }

  /** What an id waits for whose call blocks. */
  ghost function AskedFor(s: Lock, op: Op): WaitKind {
    if op.WakeOp? && op.id in s.waiters then s.waiters[op.id].kind
    else if op.AcquireReadOp? then NewReader
    else if Holds(s, op.id, Read) then Upgrader
    else NewWriter
  }

  /** A call waits from the step that blocks it to the step in which it gets in or times out, and what it
      waits for is what it asked for. */
  lemma WhoWaits(s: Lock, op: Op)
    requires Inv(s) && Enabled(s, op)
    ensures var (s', outcome) := Step(s, op);
            if outcome == Blocked then
              s'.waiters == s.waiters[op.id := Waiter(AskedFor(s, op), false)]
            else
              && s'.waiters.Keys == s.waiters.Keys - {op.id}
              && forall x :: x in s'.waiters ==> s'.waiters[x].kind == s.waiters[x].kind
  {
    match op
    case AcquireReadOp(_) => AskerWaits(s, op);
    case AcquireWriteOp(_) => AskerWaits(s, op);
    case WakeOp(_) => AskerWaits(s, op);
    case ReleaseReadOp(id) => assert s.waiters.Keys - {id} == s.waiters.Keys;
    case ReleaseWriteOp(id, _) => assert s.waiters.Keys - {id} == s.waiters.Keys;
    case TimeOutOp(id) => TimedOutWaits(s, id);
  }

  lemma AskerWaits(s: Lock, op: Op)
    requires Inv(s) && Enabled(s, op) && (op.AcquireReadOp? || op.AcquireWriteOp? || op.WakeOp?)
    ensures var (s', outcome) := Step(s, op);
            s'.waiters == if outcome == Blocked then s.waiters[op.id := Waiter(AskedFor(s, op), false)]
                          else s.waiters - {op.id}
  {
    if !op.WakeOp? {
      assert s.waiters - {op.id} == s.waiters;
    }
  }

  lemma TimedOutWaits(s: Lock, id: Id)
    requires Enabled(s, TimeOutOp(id))
    ensures var w := TimeOut(s, id).0.waiters;
            w.Keys == s.waiters.Keys - {id} && forall x :: x in w ==> w[x].kind == s.waiters[x].kind
  {
  }

  /** Who is signalled by a step: all that wait to read when a writer gives up writing, or gives up waiting
      and nobody writes or upgrades; all that wait to write when the last reader leaves that is not itself
      upgrading; and one of those that wait to write when the last lock of a writer goes. */
  ghost predicate Signals(s: Lock, op: Op, x: Id)
    requires Enabled(s, op) && x in s.waiters
  {
    var (s', outcome) := Step(s, op);
    if s.waiters[x].kind == NewReader then
      GaveUpWriting(s, op) || (GaveUpWaiting(s, op) && NobodyWrites(s'))
    else
      || (outcome == Released(Read) && !HoldsAny(s', op.id) && NobodyJustReads(s'))
      || (op.ReleaseWriteOp? && outcome == Released(Write) && !HoldsAny(s', op.id) && op.woken == Some(x))
  }

  lemma ReadReleaseSignals(s: Lock, id: Id, x: Id)
    requires Inv(s) && Enabled(s, ReleaseReadOp(id)) && x in s.waiters && x in ReleaseRead(s, id).0.waiters
    ensures ReleaseRead(s, id).0.waiters[x].signalled <==> s.waiters[x].signalled || Signals(s, ReleaseReadOp(id), x)
  {
    var s' := ReleaseRead(s, id).0;
    StepKeepsInv(s, ReleaseReadOp(id));
    HoldersAreLockers(s');
    ReadersAreReaders(s');
    if Entry(s, id) == LockerInfo(1, 0) {
      assert Readers(s') == Readers(s) - {id};
      assert id in Readers(s);
      assert Readers(s) == {id} <==> Readers(s') == {};
    }
  }

  lemma WriteReleaseSignals(s: Lock, op: Op, x: Id)
    requires Inv(s) && op.ReleaseWriteOp? && Enabled(s, op) && x in s.waiters && x in Step(s, op).0.waiters
    ensures Step(s, op).0.waiters[x].signalled <==> s.waiters[x].signalled || Signals(s, op, x)
  {
  }

  lemma TimeOutSignals(s: Lock, id: Id, x: Id)
    requires Inv(s) && Enabled(s, TimeOutOp(id)) && x in s.waiters && x in TimeOut(s, id).0.waiters
    ensures TimeOut(s, id).0.waiters[x].signalled <==> s.waiters[x].signalled || Signals(s, TimeOutOp(id), x)
  {
    var s' := TimeOut(s, id).0;
    StepKeepsInv(s, TimeOutOp(id));
    WritersAreWriters(s');
    assert Writers(s') == Writers(s.(waiters := s.waiters - {id}));
  }

  /** No other call is signalled, and none loses its signal but by waking. */
  lemma WhoIsSignalled(s: Lock, op: Op, x: Id)
    requires Inv(s) && Enabled(s, op) && x in s.waiters && x in Step(s, op).0.waiters && x != op.id
    ensures Step(s, op).0.waiters[x].signalled <==> s.waiters[x].signalled || Signals(s, op, x)
  {
    match op
    case ReleaseReadOp(id) => ReadReleaseSignals(s, id, x);
    case ReleaseWriteOp(_, _) => WriteReleaseSignals(s, op, x);
    case TimeOutOp(id) => TimeOutSignals(s, id, x);
    case _ =>
  }

  /** The last lock of a writer wakes one that waits to write and still sleeps, if there is one. */
  lemma WakesASleeper(s: Lock, id: Id, woken: Option<Id>)
    requires Inv(s) && Enabled(s, ReleaseWriteOp(id, woken)) && Entry(s, id) == LockerInfo(0, 1)
    ensures woken.Some? <==> exists x :: x in s.waiters && s.waiters[x].kind != NewReader && !s.waiters[x].signalled
    ensures woken.Some? ==>
              && woken.value in s.waiters && s.waiters[woken.value].kind != NewReader
              && !s.waiters[woken.value].signalled
  {
    if x :| x in s.waiters && s.waiters[x].kind != NewReader && !s.waiters[x].signalled {
      assert x in SleepingWriters(s.waiters);
    }
  }
}
