/** The lock class itself: a flag, two unsigned counters, the locker map and the queues of its two
    condition variables, updated in place. Each method is one stretch under the guard mutex and is
    proved to take exactly the step of RWLockSpec, so all that is proved of runs holds here. The
    assertions marked BLOCXX_ASSERT are the class's own. */
module GenericRWLock {
  import opened Common
  import opened RWLockSpec
  import opened RWLockSafety
  import RWLockRuns

  const MAX_UNSIGNED: nat := 0xFFFF_FFFF

  /** Decrementing an unsigned zero wraps around. */
  function UnsignedDec(n: nat): nat {
    if n == 0 then MAX_UNSIGNED else n - 1
  }

  // ----- how many read and write after each step ---------------------------------------------

  /** Roles are read off the locker map and the upgrades. */
  ghost predicate SameUpgrades(s: Lock, s': Lock) {
    forall x :: x in s.lockers ==> (IsUpgrading(s', x) <==> IsUpgrading(s, x))
  }

  lemma SameRoles(s: Lock, s': Lock)
    requires s'.lockers == s.lockers && SameUpgrades(s, s')
    ensures Readers(s') == Readers(s) && Writers(s') == Writers(s)
  {
  }

  lemma RecountKeepsRoles(s: Lock, id: Id, e: LockerInfo)
    requires id in s.lockers && e.IsWriter() == s.lockers[id].IsWriter()
    ensures var s' := s.(lockers := s.lockers[id := e]); Readers(s') == Readers(s) && Writers(s') == Writers(s)
  {
  }

  lemma ReaderJoins(s: Lock, s': Lock, id: Id)
    requires id !in s.lockers && s'.lockers == s.lockers[id := LockerInfo(1, 0)]
    requires SameUpgrades(s, s') && !IsUpgrading(s', id)
    ensures Readers(s') == Readers(s) + {id} && Writers(s') == Writers(s)
  {
  }

  lemma RolesAfterTryRead(s: Lock, id: Id)
    requires id !in s.lockers
    ensures var (s', outcome) := TryRead(s, id);
            && Writers(s') == Writers(s)
            && |Readers(s')| == |Readers(s)| + if outcome == Blocked then 0 else 1
  {
    var (s', outcome) := TryRead(s, id);
    if outcome == Blocked {
      SameRoles(s, s');
    } else {
      ReaderJoins(s, s', id);
    }
  }

  /** A round of a new reader's loop, decided by the flag and a counter. */
  lemma ReadRoundIs(s: Lock, id: Id, numReaders: nat, numWriters: nat)
    requires id !in s.lockers
    requires numReaders == |Readers(s)| && numWriters == |Writers(s)|
    ensures var (s', outcome) := TryRead(s, id);
            && |Writers(s')| == numWriters
            && if !s.canRead || numWriters > 0 then
                 && s' == Lock(s.canRead, s.lockers, Sleep(s.waiters - {id}, id, NewReader)) && outcome == Blocked
                 && |Readers(s')| == numReaders
               else
                 && s' == Lock(true, s.lockers[id := LockerInfo(1, 0)], s.waiters - {id}) && outcome == Acquired(Read)
                 && |Readers(s')| == numReaders + 1
  {
    RolesAfterTryRead(s, id);
    assert Sleep(s.waiters - {id}, id, NewReader) == Sleep(s.waiters, id, NewReader);
  }

  lemma RolesAfterTryWrite(s: Lock, id: Id)
    requires id !in s.lockers
    ensures var (s', outcome) := TryWrite(s, id);
            if outcome == Blocked
            then Readers(s') == Readers(s) && Writers(s') == Writers(s)
            else Readers(s') == {} && Writers(s') == {id}
    ensures TryWrite(s, id).1 == Blocked <==> |Readers(s)| != 0 || |Writers(s)| != 0
  {
    var (s', outcome) := TryWrite(s, id);
    LockersArePartitioned(s);
    if outcome == Blocked {
      SameRoles(s, s');
    } else {
      assert Readers(s') == {} && Writers(s') == {id};
    }
  }

  /** A round of a new writer's loop, decided by the counters. */
  lemma WriteRoundIs(s: Lock, id: Id, numReaders: nat, numWriters: nat)
    requires id !in s.lockers
    requires numReaders == |Readers(s)| && numWriters == |Writers(s)|
    ensures var (s', outcome) := TryWrite(s, id);
            && if numReaders != 0 || numWriters != 0 then
                 && s' == Lock(false, s.lockers, Sleep(s.waiters - {id}, id, NewWriter)) && outcome == Blocked
                 && |Readers(s')| == numReaders && |Writers(s')| == numWriters
               else
                 && s' == Lock(false, s.lockers[id := LockerInfo(0, 1)], s.waiters - {id}) && outcome == Acquired(Write)
                 && |Readers(s')| == 0 && |Writers(s')| == 1
  {
    RolesAfterTryWrite(s, id);
    assert Sleep(s.waiters - {id}, id, NewWriter) == Sleep(s.waiters, id, NewWriter);
  }

  lemma RolesAfterTryUpgrade(s: Lock, id: Id)
    requires id in s.lockers && !s.lockers[id].IsWriter() && Writers(s) <= {id}
    ensures var s' := TryUpgrade(s, id).0;
            Readers(s') == Readers(s) - {id} && Writers(s') == {id}
    ensures TryUpgrade(s, id).1 == Blocked <==> |Readers(s) - {id}| != 0
  {
    var s' := TryUpgrade(s, id).0;
    assert Readers(s') == Readers(s) - {id} && Writers(s') == {id};
    assert Readers(s) <= {id} <==> Readers(s) - {id} == {};
  }

  /** A round of an upgrade's loop, decided by the number of other readers. */
  lemma UpgradeRoundIs(s: Lock, id: Id, others: nat)
    requires id in s.lockers && !s.lockers[id].IsWriter() && Writers(s) <= {id}
    requires others == |Readers(s) - {id}|
    ensures var (s', outcome) := TryUpgrade(s, id);
            && |Readers(s')| == others && |Writers(s')| == 1
            && if others != 0 then
                 s' == Lock(false, s.lockers, Sleep(s.waiters - {id}, id, Upgrader)) && outcome == Blocked
               else
                 var info := LockerInfo(s.lockers[id].readCount, s.lockers[id].writeCount + 1);
                 s' == Lock(s.canRead, s.lockers[id := info], s.waiters - {id}) && outcome == Acquired(Write)
  {
    RolesAfterTryUpgrade(s, id);
    assert Sleep(s.waiters - {id}, id, Upgrader) == Sleep(s.waiters, id, Upgrader);
  }

  lemma RolesAfterTimeOut(s: Lock, id: Id)
    requires WellFormed(s) && Exclusive(s) && id in s.waiters
    ensures var s' := TimeOut(s, id).0;
            if IsUpgrading(s, id)
            then Writers(s) == {id} && Writers(s') == {} && |Readers(s')| == |Readers(s)| + 1
            else Writers(s') == Writers(s) && Readers(s') == Readers(s)
  {
    var s' := TimeOut(s, id).0;
    if IsUpgrading(s, id) {
      UpgraderLeaves(s, s', id);
      assert id in Writers(s);
      assert Writers(s) == {id};
    } else {
      SameRoles(s, s');
    }
  }

  lemma UpgraderLeaves(s: Lock, s': Lock, id: Id)
    requires id in s.lockers && !s.lockers[id].IsWriter() && IsUpgrading(s, id)
    requires s'.lockers == s.lockers && !IsUpgrading(s', id)
    requires forall x :: x in s.lockers && x != id ==> (IsUpgrading(s', x) <==> IsUpgrading(s, x))
    ensures Readers(s') == Readers(s) + {id} && Writers(s') == Writers(s) - {id}
    ensures |Readers(s')| == |Readers(s)| + 1
  {
  }

  lemma RolesAfterReleaseRead(s: Lock, id: Id)
    requires id !in s.waiters
    ensures var s' := ReleaseRead(s, id).0;
            && Writers(s') == Writers(s)
            && if Entry(s, id) == LockerInfo(1, 0)
               then |Readers(s')| == |Readers(s)| - 1 && (|Readers(s)| == 1 <==> Readers(s) == {id})
               else Readers(s') == Readers(s)
  {
    var s' := ReleaseRead(s, id).0;
    assert Writers(s') == Writers(s);
    if Entry(s, id) == LockerInfo(1, 0) {
      assert id in Readers(s);
      assert Readers(s') == Readers(s) - {id};
      assert Readers(s) - {id} == {} ==> Readers(s) == {id};
    } else {
      assert Readers(s') == Readers(s);
    }
  }

  /** A write holder is alone, and stays or leaves alone. */
  lemma RolesAfterReleaseWrite(s: Lock, id: Id, woken: Option<Id>)
    requires Exclusive(s) && Enabled(s, ReleaseWriteOp(id, woken)) && Entry(s, id).IsWriter()
    ensures Writers(s) == {id} && Readers(s) == {}
    ensures var s' := ReleaseWrite(s, id, woken).0;
            && Writers(s') == (if Entry(s, id).writeCount > 1 then {id} else {})
            && Readers(s') == (if Entry(s, id).writeCount == 1 && Entry(s, id).IsReader() then {id} else {})
  {
    assert id in Holders(s) && id in Writers(s);
    assert Writers(s) == {id} && Readers(s) == {};
    var s' := ReleaseWrite(s, id, woken).0;
    assert Writers(s') == if Entry(s, id).writeCount > 1 then {id} else {};
    assert Readers(s') == if Entry(s, id).writeCount == 1 && Entry(s, id).IsReader() then {id} else {};
  }

  class GenericRWLockImpl {
    var waiters: map<Id, Waiter>
    var canRead: bool
    var numReaders: nat
    var numWriters: nat
    var lockerInfo: map<Id, LockerInfo>

    ghost function View(): Lock
      reads this
    {
      Lock(canRead, lockerInfo, waiters)
    }

    /** The counters count what they are meant to count, and there is never more than one writer. */
    ghost predicate Valid()
      reads this
    {
      && Inv(View())
      && numReaders == |Readers(View())|
      && numWriters == |Writers(View())|
      && numWriters <= 1
    }

    constructor ()
      ensures Valid() && View() == INIT
    {
      waiters, canRead, numReaders, numWriters, lockerInfo := map[], true, 0, 0, map[];
    }

    // ----- acquireReadLock -------------------------------------------------------------------

    method AcquireReadLock(id: Id) returns (outcome: Outcome)
      requires Valid() && id !in waiters
      modifies this
      ensures Valid()
      ensures (View(), outcome) == AcquireRead(old(View()), id)
    {
      ghost var s := View();
      if id in lockerInfo {
        var info := lockerInfo[id];
        assert info.IsReader() || info.IsWriter();  // BLOCXX_ASSERT
        RecountKeepsInv(s, id, LockerInfo(info.readCount + 1, info.writeCount));
        RecountKeepsRoles(s, id, LockerInfo(info.readCount + 1, info.writeCount));
        lockerInfo := lockerInfo[id := LockerInfo(info.readCount + 1, info.writeCount)];
        assert View() == s.(lockers := s.lockers[id := LockerInfo(info.readCount + 1, info.writeCount)]);
        return Acquired(Read);
      }
      outcome := ReadRound(id);
    }

    /** One test of the loop in which a new reader waits; a sleeping call leaves its queue first. */
    method ReadRound(id: Id) returns (outcome: Outcome)
      requires Valid() && id !in lockerInfo
      requires id in waiters ==> waiters[id].kind == NewReader
      modifies this
      ensures Valid()
      ensures (View(), outcome) == TryRead(old(View()), id)
    {
      TryReadKeepsInv(View(), id);
      ReadRoundIs(View(), id, numReaders, numWriters);
      waiters := waiters - {id};
      if !canRead || numWriters > 0 {
        waiters := Sleep(waiters, id, NewReader);
        outcome := Blocked;
      } else {
        lockerInfo := lockerInfo[id := LockerInfo(1, 0)];
        numReaders := numReaders + 1;
        outcome := Acquired(Read);
      }
    }

    // ----- acquireWriteLock ------------------------------------------------------------------

    method AcquireWriteLock(id: Id) returns (outcome: Outcome)
      requires Valid() && id !in waiters
      modifies this
      ensures Valid()
      ensures (View(), outcome) == AcquireWrite(old(View()), id)
    {
      ghost var s := View();
      if id !in lockerInfo {
        outcome := WriteRound(id);
        return;
      }
      var info := lockerInfo[id];
      assert info.IsReader() || info.IsWriter();  // BLOCXX_ASSERT
      if info.IsWriter() {
        RecountKeepsInv(s, id, LockerInfo(info.readCount, info.writeCount + 1));
        RecountKeepsRoles(s, id, LockerInfo(info.readCount, info.writeCount + 1));
        lockerInfo := lockerInfo[id := LockerInfo(info.readCount, info.writeCount + 1)];
        assert View() == s.(lockers := s.lockers[id := LockerInfo(info.readCount, info.writeCount + 1)]);
        return Acquired(Write);
      }
      assert numWriters == 0 || numWriters == 1;  // BLOCXX_ASSERT
      RWLockRuns.DeadlockIffOtherUpgrade(s, AcquireWriteOp(id));
      if numWriters == 1 {
        return Deadlocked;
      }
      assert id in Readers(s);
      numReaders := UnsignedDec(numReaders);
      numWriters := numWriters + 1;
      assert |Readers(s) - {id}| == |Readers(s)| - 1;
      outcome := UpgradeRound(id);
    }

    /** One test of the loop in which a reader waits for the others to finish. The counters already
        count id as a writer. */
    method UpgradeRound(id: Id) returns (outcome: Outcome)
      requires Inv(View()) && id in lockerInfo && !lockerInfo[id].IsWriter()
      requires Writers(View()) <= {id} && numWriters == 1
      requires numReaders == |Readers(View()) - {id}|
      modifies this
      ensures Valid()
      ensures (View(), outcome) == TryUpgrade(old(View()), id)
    {
      TryUpgradeKeepsInv(View(), id);
      UpgradeRoundIs(View(), id, numReaders);
      waiters := waiters - {id};
      if numReaders != 0 {
        canRead := false;
        waiters := Sleep(waiters, id, Upgrader);
        outcome := Blocked;
      } else {
        var info := lockerInfo[id];
        lockerInfo := lockerInfo[id := LockerInfo(info.readCount, info.writeCount + 1)];
        outcome := Acquired(Write);
      }
    }

    /** One test of the loop in which an id without any lock waits to write. */
    method WriteRound(id: Id) returns (outcome: Outcome)
      requires Valid() && id !in lockerInfo
      requires id in waiters ==> waiters[id].kind == NewWriter
      modifies this
      ensures Valid()
      ensures (View(), outcome) == TryWrite(old(View()), id)
    {
      TryWriteKeepsInv(View(), id);
      WriteRoundIs(View(), id, numReaders, numWriters);
      waiters := waiters - {id};
      if numReaders != 0 || numWriters != 0 {
        canRead := false;
        waiters := Sleep(waiters, id, NewWriter);
        outcome := Blocked;
      } else {
        lockerInfo := lockerInfo[id := LockerInfo(0, 1)];
        numWriters := numWriters + 1;
        canRead := false;
        outcome := Acquired(Write);
      }
    }

    // ----- the return of a timed wait --------------------------------------------------------

    /** A timed wait returned true: the waiting loop goes round once more. */
    method Resume(id: Id) returns (outcome: Outcome)
      requires Valid() && id in waiters
      modifies this
      ensures Valid()
      ensures (View(), outcome) == Wake(old(View()), id)
    {
      match waiters[id].kind {
        case NewReader => outcome := ReadRound(id);
        case NewWriter => outcome := WriteRound(id);
        case Upgrader =>
          assert id in Writers(View()) && Writers(View()) == {id};
          assert Readers(View()) - {id} == Readers(View());
          outcome := UpgradeRound(id);
      }
    }

    /** A timed wait returned false: undo and throw TimeoutException. */
    method Expire(id: Id) returns (outcome: Outcome)
      requires Valid() && id in waiters && !waiters[id].signalled
      modifies this
      ensures Valid()
      ensures (View(), outcome) == TimeOut(old(View()), id)
      ensures lockerInfo == old(lockerInfo)
    {
      TimeOutKeepsInv(View(), id);
      RolesAfterTimeOut(View(), id);
      var kind := waiters[id].kind;
      waiters := waiters - {id};
      outcome := TimedOut;
      if kind == NewReader {
        return;
      }
      if kind == Upgrader {
        numReaders := numReaders + 1;
        numWriters := UnsignedDec(numWriters);
      }
      canRead := true;
      if numWriters == 0 {
        waiters := NotifyReaders(waiters);
      }
    }

    // ----- releases --------------------------------------------------------------------------

    method ReleaseReadLock(id: Id) returns (outcome: Outcome)
      requires Valid() && id !in waiters
      modifies this
      ensures Valid()
      ensures (View(), outcome) == ReleaseRead(old(View()), id)
    {
      ghost var s := View();
      if id !in lockerInfo || !lockerInfo[id].IsReader() {
        return NotHeld;
      }
      var info := LockerInfo(lockerInfo[id].readCount - 1, lockerInfo[id].writeCount);
      lockerInfo := lockerInfo[id := info];
      if !info.IsWriter() && !info.IsReader() {
        RolesAfterReleaseRead(s, id);
        numReaders := UnsignedDec(numReaders);
        if numReaders == 0 {
          waiters := NotifyWriters(waiters);
        }
        lockerInfo := lockerInfo - {id};
        assert lockerInfo == s.lockers - {id};
      } else {
        RecountKeepsRoles(s, id, info);
      }
      outcome := Released(Read);
      assert (View(), outcome) == ReleaseRead(s, id);
      ReleaseReadKeepsInv(s, id);
    }

    /** notifyOne on the writers' condition variable: which sleeping call wakes is not the
        lock's choice. */
    method NotifyOneWriter() returns (woken: Option<Id>)
      modifies this`waiters
      ensures IsPick(old(waiters), woken)
      ensures waiters == NotifyOne(old(waiters), woken)
    {
      if w :| w in SleepingWriters(waiters) {
        waiters := waiters[w := Waiter(waiters[w].kind, true)];
        woken := Some(w);
      } else {
        woken := None;
      }
    }

    method ReleaseWriteLock(id: Id) returns (outcome: Outcome, woken: Option<Id>)
      requires Valid() && id !in waiters
      modifies this
      ensures IsFinalWrite(old(View()), id) ==> IsPick(old(waiters), woken)
      ensures Valid()
      ensures (View(), outcome) == ReleaseWrite(old(View()), id, woken)
    {
      woken := None;
      if id !in lockerInfo || !lockerInfo[id].IsWriter() {
        return NotHeld, woken;
      }
      ghost var s := View();
      assert id in Holders(s) && id in Writers(s);
      var info := LockerInfo(lockerInfo[id].readCount, lockerInfo[id].writeCount - 1);
      assert lockerInfo[id].IsWriter();  // BLOCXX_ASSERT
      lockerInfo := lockerInfo[id := info];
      if !info.IsWriter() {
        numWriters := UnsignedDec(numWriters);
        assert numWriters == 0;  // BLOCXX_ASSERT
        canRead := true;
        if info.IsReader() {
          numReaders := numReaders + 1;
        } else {
          woken := NotifyOneWriter();
          lockerInfo := lockerInfo - {id};
          assert lockerInfo == s.lockers - {id};
        }
        waiters := NotifyReaders(waiters);
      }
      outcome := Released(Write);
      assert (View(), outcome) == ReleaseWrite(s, id, woken);
      ReleaseWriteKeepsInv(s, id, woken);
      RolesAfterReleaseWrite(s, id, woken);
    }
  }
}
