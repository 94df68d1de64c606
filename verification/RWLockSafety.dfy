/** What every step of the read/write lock keeps. */
module RWLockSafety {
  import opened Common
  import opened RWLockSpec

  /** A write holder is the only id in the locker map, and at most one id writes or upgrades. */
  ghost predicate Exclusive(s: Lock) {
    && (forall id :: id in Holders(s) ==> s.lockers.Keys == {id})
    && (forall a, b :: a in Writers(s) && b in Writers(s) ==> a == b)
  }

  /** Entries hold something; new calls come from ids without a lock, upgrades from pure readers. */
  ghost predicate WellFormed(s: Lock) {
    && (forall id :: id in s.lockers ==> s.lockers[id] != LockerInfo(0, 0))
    && (forall id :: id in s.waiters ==>
          if s.waiters[id].kind == Upgrader
          then id in s.lockers && !s.lockers[id].IsWriter()
          else id !in s.lockers)
  }

  ghost predicate SignalledWriter(s: Lock) {
    exists id :: id in s.waiters && s.waiters[id] == Waiter(NewWriter, true)
  }

  /** No call sleeps on while the condition it waits for holds. */
  ghost predicate NoLostWakeup(s: Lock) {
    && (s.canRead && Writers(s) == {} ==>
          forall id :: id in s.waiters && s.waiters[id].kind == NewReader ==> s.waiters[id].signalled)
    && (Readers(s) == {} ==>
          forall id :: id in s.waiters && s.waiters[id].kind == Upgrader ==> s.waiters[id].signalled)
    && (s.lockers == map[] && (exists id :: id in s.waiters && s.waiters[id].kind == NewWriter) ==>
          SignalledWriter(s))
  }

  /** New readers are shut out only on behalf of a writer that holds or waits. */
  ghost predicate ReadersShutOutForWriter(s: Lock) {
    !s.canRead ==> Holders(s) != {} || exists id :: id in s.waiters && s.waiters[id].kind != NewReader
  }

  ghost predicate Inv(s: Lock) {
    WellFormed(s) && Exclusive(s) && NoLostWakeup(s) && ReadersShutOutForWriter(s)
  }

  lemma InitInv()
    ensures Inv(INIT)
  {
  }

  lemma LockersArePartitioned(s: Lock)
    ensures Readers(s) + Writers(s) == s.lockers.Keys
    ensures Readers(s) !! Writers(s)
    ensures Readers(s) == {} && Writers(s) == {} <==> s.lockers == map[]
  {
    if Readers(s) == {} && Writers(s) == {} {
      assert forall id :: id in s.lockers ==> id in Readers(s) || id in Writers(s);
    }
  }

  /** A call other than id is signalled after a step that neither signals nor forgets it. */
  lemma KeepsOthers(s: Lock, s': Lock, id: Id)
    requires s'.waiters - {id} == s.waiters - {id}
    ensures forall x :: x != id ==> (x in s'.waiters <==> x in s.waiters)
    ensures forall x :: x != id && x in s.waiters ==> s'.waiters[x] == s.waiters[x]
  {
    forall x | x != id
      ensures x in s'.waiters <==> x in s.waiters
      ensures x in s.waiters ==> s'.waiters[x] == s.waiters[x]
    {
      assert x in s.waiters <==> x in s.waiters - {id};
      assert x in s'.waiters <==> x in s'.waiters - {id};
      if x in s.waiters {
        assert (s.waiters - {id})[x] == s.waiters[x] && (s'.waiters - {id})[x] == s'.waiters[x];
      }
    }
  }

  lemma ReadAcquiredKeepsInv(s: Lock, id: Id)
    requires Inv(s) && id !in s.lockers && s.canRead && Writers(s) == {}
    requires id in s.waiters ==> s.waiters[id].kind == NewReader
    ensures Inv(TryRead(s, id).0)
  {
    var s' := TryRead(s, id).0;
    assert Holders(s) <= Writers(s);
    assert Holders(s') == {} && Writers(s') == {} && id in Readers(s');
    KeepsOthers(s, s', id);
  }

  lemma ReadBlockedKeepsInv(s: Lock, id: Id)
    requires Inv(s) && id !in s.lockers && !(s.canRead && Writers(s) == {})
    requires id in s.waiters ==> s.waiters[id].kind == NewReader
    ensures Inv(TryRead(s, id).0)
  {
    var s' := TryRead(s, id).0;
    assert Holders(s') == Holders(s) && Writers(s') == Writers(s) && Readers(s') == Readers(s);
    KeepsOthers(s, s', id);
    if SignalledWriter(s) {
      var w :| w in s.waiters && s.waiters[w] == Waiter(NewWriter, true);
      assert w in s'.waiters && s'.waiters[w] == Waiter(NewWriter, true);
    }
  }

  lemma TryReadKeepsInv(s: Lock, id: Id)
    requires Inv(s) && id !in s.lockers
    requires id in s.waiters ==> s.waiters[id].kind == NewReader
    ensures Inv(TryRead(s, id).0)
  {
    if s.canRead && Writers(s) == {} {
      ReadAcquiredKeepsInv(s, id);
    } else {
      ReadBlockedKeepsInv(s, id);
    }
  }

  lemma TryWriteKeepsInv(s: Lock, id: Id)
    requires Inv(s) && id !in s.lockers
    requires id in s.waiters ==> s.waiters[id].kind == NewWriter
    ensures Inv(TryWrite(s, id).0)
  {
    var s' := TryWrite(s, id).0;
    LockersArePartitioned(s);
    LockersArePartitioned(s');
    if s.lockers == map[] {
      assert Holders(s') == {id};
      assert Writers(s') == {id};
    } else {
      assert Holders(s') == Holders(s);
      assert Writers(s') == Writers(s);
    }
    KeepsOthers(s, s', id);
  }

  lemma TryUpgradeKeepsInv(s: Lock, id: Id)
    requires Inv(s) && id in s.lockers && !s.lockers[id].IsWriter()
    requires Writers(s) <= {id}
    ensures Inv(TryUpgrade(s, id).0)
  {
    var s' := TryUpgrade(s, id).0;
    LockersArePartitioned(s);
    LockersArePartitioned(s');
    assert Writers(s') == {id};
    KeepsOthers(s, s', id);
  }

  /** Counting a recursive lock up or down, without reaching zero, changes nobody's role. */
  lemma RecountKeepsInv(s: Lock, id: Id, e: LockerInfo)
    requires Inv(s) && id in s.lockers && e != LockerInfo(0, 0)
    requires e.IsWriter() == s.lockers[id].IsWriter()
    ensures Inv(s.(lockers := s.lockers[id := e]))
  {
    var s' := s.(lockers := s.lockers[id := e]);
    assert s'.lockers.Keys == s.lockers.Keys;
    assert Holders(s') == Holders(s);
    assert Writers(s') == Writers(s);
    assert Readers(s') == Readers(s);
    LockersArePartitioned(s);
    LockersArePartitioned(s');
  }

  lemma AcquireKeepsInv(s: Lock, id: Id)
    requires Inv(s) && id !in s.waiters
    ensures Inv(AcquireRead(s, id).0)
    ensures Inv(AcquireWrite(s, id).0)
  {
    if id !in s.lockers {
      TryReadKeepsInv(s, id);
      TryWriteKeepsInv(s, id);
    } else {
      var e := s.lockers[id];
      RecountKeepsInv(s, id, LockerInfo(e.readCount + 1, e.writeCount));
      if e.IsWriter() {
        RecountKeepsInv(s, id, LockerInfo(e.readCount, e.writeCount + 1));
      } else if !exists other :: other in s.waiters && IsUpgrading(s, other) {
        assert Writers(s) == {} by {
          assert forall w :: w in Writers(s) ==> w in Holders(s) || IsUpgrading(s, w);
          assert forall h :: h in Holders(s) ==> h == id;
        }
        TryUpgradeKeepsInv(s, id);
      }
    }
  }

  lemma LastReadKeepsInv(s: Lock, id: Id)
    requires Inv(s) && id !in s.waiters && Entry(s, id) == LockerInfo(1, 0)
    ensures Inv(ReleaseRead(s, id).0)
  {
    var s' := ReleaseRead(s, id).0;
    assert Holders(s') == Holders(s) == {};
    assert Writers(s') == Writers(s);
    assert Readers(s') == Readers(s) - {id};
    LockersArePartitioned(s);
    LockersArePartitioned(s');
  }

  lemma ReleaseReadKeepsInv(s: Lock, id: Id)
    requires Inv(s) && id !in s.waiters
    ensures Inv(ReleaseRead(s, id).0)
  {
    var e := Entry(s, id);
    if e == LockerInfo(1, 0) {
      LastReadKeepsInv(s, id);
    } else if e.IsReader() {
      RecountKeepsInv(s, id, LockerInfo(e.readCount - 1, e.writeCount));
    }
  }

  /** The last write lock goes, but a read lock stays. */
  lemma DowngradeKeepsInv(s: Lock, id: Id)
    requires Inv(s) && id !in s.waiters && id in s.lockers
    requires s.lockers[id].writeCount == 1 && s.lockers[id].IsReader()
    ensures Inv(ReleaseWrite(s, id, None).0)
  {
    var s' := ReleaseWrite(s, id, None).0;
    assert s.lockers.Keys == {id};
    assert Holders(s') == {} && Writers(s') == {} && Readers(s') == {id};
  }

  /** The last lock goes, so the locker map is empty. */
  lemma FinalWriteKeepsInv(s: Lock, id: Id, woken: Option<Id>)
    requires Inv(s) && id !in s.waiters && IsFinalWrite(s, id) && IsPick(s.waiters, woken)
    ensures Inv(ReleaseWrite(s, id, woken).0)
  {
    var s' := ReleaseWrite(s, id, woken).0;
    assert id in Holders(s) && s.lockers.Keys == {id};
    assert s'.lockers == map[];
    forall x | x in s.waiters ensures s.waiters[x].kind != Upgrader {
    }
    if exists x :: x in s.waiters && s.waiters[x].kind == NewWriter {
      var x :| x in s.waiters && s.waiters[x].kind == NewWriter;
      var w := if woken.Some? then woken.value else x;
      assert woken.None? ==> x !in SleepingWriters(s.waiters);
      assert w in s'.waiters && s'.waiters[w] == Waiter(NewWriter, true);
    }
  }

  lemma ReleaseWriteKeepsInv(s: Lock, id: Id, woken: Option<Id>)
    requires Inv(s) && Enabled(s, ReleaseWriteOp(id, woken))
    ensures Inv(ReleaseWrite(s, id, woken).0)
  {
    var e := Entry(s, id);
    if e.IsWriter() {
      if e.writeCount > 1 {
        RecountKeepsInv(s, id, LockerInfo(e.readCount, e.writeCount - 1));
      } else if e.IsReader() {
        DowngradeKeepsInv(s, id);
      } else {
        FinalWriteKeepsInv(s, id, woken);
      }
    }
  }

  /** The waiters of s' are those of s without id, of the same kinds, and none has lost its signal. */
  ghost predicate Forgets(s: Lock, s': Lock, id: Id) {
    && s'.lockers == s.lockers
    && (forall x :: x in s'.waiters <==> x in s.waiters && x != id)
    && (forall x :: x in s'.waiters ==> s'.waiters[x].kind == s.waiters[x].kind)
    && (forall x :: x in s'.waiters && s.waiters[x].signalled ==> s'.waiters[x].signalled)
  }

  lemma ForgottenRoles(s: Lock, s': Lock, id: Id)
    requires WellFormed(s) && Forgets(s, s', id)
    ensures Holders(s') == Holders(s)
    ensures Writers(s') == if IsUpgrading(s, id) then Writers(s) - {id} else Writers(s)
    ensures Readers(s) <= Readers(s')
  {
  }

  lemma ForgettingKeepsOrder(s: Lock, s': Lock, id: Id)
    requires WellFormed(s) && Exclusive(s) && Forgets(s, s', id)
    ensures WellFormed(s') && Exclusive(s')
  {
    ForgottenRoles(s, s', id);
  }

  lemma ReaderTimeOutKeepsInv(s: Lock, id: Id)
    requires Inv(s) && id in s.waiters && s.waiters[id].kind == NewReader
    ensures Inv(s.(waiters := s.waiters - {id}))
  {
    var s' := s.(waiters := s.waiters - {id});
    ForgettingKeepsOrder(s, s', id);
    ForgottenRoles(s, s', id);
    assert Readers(s') == Readers(s);
    if SignalledWriter(s) {
      var w :| w in s.waiters && s.waiters[w] == Waiter(NewWriter, true);
      assert w in s'.waiters && s'.waiters[w] == s.waiters[w];
    }
    if exists w :: w in s.waiters && s.waiters[w].kind != NewReader {
      var w :| w in s.waiters && s.waiters[w].kind != NewReader;
      assert w in s'.waiters;
    }
  }

  /** Without id's call the last of the signalled writers is still there: its wait has not timed out. */
  lemma WriterTimeOutKeepsInv(s: Lock, s': Lock, id: Id)
    requires Inv(s) && id in s.waiters && s.waiters[id].kind != NewReader && !s.waiters[id].signalled
    requires Forgets(s, s', id) && s'.canRead
    requires Writers(s') == {} ==>
               forall x :: x in s'.waiters && s'.waiters[x].kind == NewReader ==> s'.waiters[x].signalled
    ensures Inv(s')
  {
    ForgettingKeepsOrder(s, s', id);
    ForgottenRoles(s, s', id);
    if SignalledWriter(s) {
      var w :| w in s.waiters && s.waiters[w] == Waiter(NewWriter, true);
      assert w in s'.waiters && s'.waiters[w] == Waiter(NewWriter, true);
    }
  }

  lemma TimeOutKeepsInv(s: Lock, id: Id)
    requires Inv(s) && Enabled(s, TimeOutOp(id))
    ensures Inv(TimeOut(s, id).0)
  {
    if s.waiters[id].kind == NewReader {
      ReaderTimeOutKeepsInv(s, id);
    } else {
      WriterTimeOutKeepsInv(s, TimeOut(s, id).0, id);
    }
  }

  /** Every step of every call keeps the invariant. */
  lemma StepKeepsInv(s: Lock, op: Op)
    requires Inv(s) && Enabled(s, op)
    ensures Inv(Step(s, op).0)
  {
    match op
    case AcquireReadOp(id) => AcquireKeepsInv(s, id);
    case AcquireWriteOp(id) => AcquireKeepsInv(s, id);
    case ReleaseReadOp(id) => ReleaseReadKeepsInv(s, id);
    case ReleaseWriteOp(id, woken) => ReleaseWriteKeepsInv(s, id, woken);
    case TimeOutOp(id) => TimeOutKeepsInv(s, id);
    case WakeOp(id) =>
      match s.waiters[id].kind {
        case NewReader => TryReadKeepsInv(s, id);
        case NewWriter => TryWriteKeepsInv(s, id);
        case Upgrader => assert id in Writers(s); TryUpgradeKeepsInv(s, id);
      }
  }
}
