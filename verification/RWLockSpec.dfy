/** The recursive, upgradable read/write lock as a step system.

    A step is one stretch of code that runs under the lock's guard mutex: from the start of a
    call, or from the return of a timed wait, to the next wait or to the end of the call. The
    state here has no counters: who reads and who writes is read off the locker map and the
    sleeping calls. The class in GenericRWLock.dfy keeps the counters and refines this system.
  */
module RWLockSpec {
  import opened Common

  /** Ids are only ever compared for equality. */
  type Id = nat

  datatype LockerInfo = LockerInfo(readCount: nat, writeCount: nat) {
    predicate IsReader() { readCount > 0 }
    predicate IsWriter() { writeCount > 0 }
  }

  /** Readers sleep on one condition variable; both kinds of writers share the other one. */
  datatype WaitKind = NewReader | NewWriter | Upgrader

  /** A call that sits in a timed wait. A signalled call has left the condition variable's queue
      but has not yet run again. */
  datatype Waiter = Waiter(kind: WaitKind, signalled: bool)

  datatype Lock = Lock(canRead: bool, lockers: map<Id, LockerInfo>, waiters: map<Id, Waiter>)

  datatype Mode = Read | Write

  datatype Outcome =
    | Acquired(mode: Mode)
    | Released(mode: Mode)
    | Blocked     // the call is asleep in a timed wait
    | TimedOut    // TimeoutException
    | Deadlocked  // DeadlockException
    | NotHeld     // GenericRWLockImplException

  const INIT := Lock(true, map[], map[])

  // ----- who holds what ------------------------------------------------------------------

  predicate IsUpgrading(s: Lock, id: Id) {
    id in s.waiters && s.waiters[id].kind == Upgrader
  }

  /** Holders of a write lock. */
  function Holders(s: Lock): set<Id> {
    set id | id in s.lockers && s.lockers[id].IsWriter()
  }

  /** What the counter of writers is meant to count: current writers and upgrading readers. */
  function Writers(s: Lock): set<Id> {
    set id | id in s.lockers && (s.lockers[id].IsWriter() || IsUpgrading(s, id))
  }

  /** What the counter of readers is meant to count. */
  function Readers(s: Lock): set<Id> {
    set id | id in s.lockers && !s.lockers[id].IsWriter() && !IsUpgrading(s, id)
  }

  function Entry(s: Lock, id: Id): LockerInfo {
    if id in s.lockers then s.lockers[id] else LockerInfo(0, 0)
  }

  // ----- condition variables -------------------------------------------------------------

  function Sleep(waiters: map<Id, Waiter>, id: Id, kind: WaitKind): map<Id, Waiter> {
    waiters[id := Waiter(kind, false)]
  }

  function NotifyReaders(waiters: map<Id, Waiter>): map<Id, Waiter> {
    map id | id in waiters ::
      if waiters[id].kind == NewReader then Waiter(NewReader, true) else waiters[id]
  }

  function NotifyWriters(waiters: map<Id, Waiter>): map<Id, Waiter> {
    map id | id in waiters ::
      if waiters[id].kind != NewReader then Waiter(waiters[id].kind, true) else waiters[id]
  }

  /** The calls a notification of one writer can wake. */
  function SleepingWriters(waiters: map<Id, Waiter>): set<Id> {
    set id | id in waiters && waiters[id].kind != NewReader && !waiters[id].signalled
  }

  /** notifyOne wakes some sleeping call if there is one. */
  predicate IsPick(waiters: map<Id, Waiter>, woken: Option<Id>) {
    match woken
    case None => SleepingWriters(waiters) == {}
    case Some(w) => w in SleepingWriters(waiters)
  }

  function NotifyOne(waiters: map<Id, Waiter>, woken: Option<Id>): map<Id, Waiter>
    requires IsPick(waiters, woken)
  {
    match woken
    case None => waiters
    case Some(w) => waiters[w := Waiter(waiters[w].kind, true)]
  }

  // ----- the steps -----------------------------------------------------------------------

  /** One round of the loop in which a new reader waits. */
  function TryRead(s: Lock, id: Id): (Lock, Outcome) {
    if s.canRead && Writers(s) == {} then
      (s.(lockers := s.lockers[id := LockerInfo(1, 0)], waiters := s.waiters - {id}), Acquired(Read))
    else
      (s.(waiters := Sleep(s.waiters, id, NewReader)), Blocked)
  }

  /** One round of the loop in which an id without any lock waits to write. */
  function TryWrite(s: Lock, id: Id): (Lock, Outcome) {
    if s.lockers == map[] then
      (Lock(false, s.lockers[id := LockerInfo(0, 1)], s.waiters - {id}), Acquired(Write))
    else
      (s.(canRead := false, waiters := Sleep(s.waiters, id, NewWriter)), Blocked)
  }

  /** One round of the loop in which a reader waits for the other readers to finish. */
  function TryUpgrade(s: Lock, id: Id): (Lock, Outcome)
    requires id in s.lockers
  {
    if Readers(s) <= {id} then
      (s.(lockers := s.lockers[id := LockerInfo(s.lockers[id].readCount, 1)], waiters := s.waiters - {id}),
       Acquired(Write))
    else
      (s.(canRead := false, waiters := Sleep(s.waiters, id, Upgrader)), Blocked)
  }

  function AcquireRead(s: Lock, id: Id): (Lock, Outcome) {
    if id in s.lockers then
      var e := s.lockers[id];
      (s.(lockers := s.lockers[id := LockerInfo(e.readCount + 1, e.writeCount)]), Acquired(Read))
    else
      TryRead(s, id)
  }

  function AcquireWrite(s: Lock, id: Id): (Lock, Outcome) {
    if id !in s.lockers then
      TryWrite(s, id)
    else if s.lockers[id].IsWriter() then
      var e := s.lockers[id];
      (s.(lockers := s.lockers[id := LockerInfo(e.readCount, e.writeCount + 1)]), Acquired(Write))
    else if exists other :: other in s.waiters && IsUpgrading(s, other) then
      (s, Deadlocked)
    else
      TryUpgrade(s, id)
  }

  function ReleaseRead(s: Lock, id: Id): (Lock, Outcome) {
    var e := Entry(s, id);
    if !e.IsReader() then
      (s, NotHeld)
    else if e.readCount > 1 || e.IsWriter() then
      (s.(lockers := s.lockers[id := LockerInfo(e.readCount - 1, e.writeCount)]), Released(Read))
    else
      var waiters := if Readers(s) == {id} then NotifyWriters(s.waiters) else s.waiters;
      (s.(lockers := s.lockers - {id}, waiters := waiters), Released(Read))
  }

  /** The release that gives up the last of a pure writer's locks: the only one that calls
      notifyOne. */
  predicate IsFinalWrite(s: Lock, id: Id) {
    Entry(s, id) == LockerInfo(0, 1)
  }

  function ReleaseWrite(s: Lock, id: Id, woken: Option<Id>): (Lock, Outcome)
    requires IsFinalWrite(s, id) ==> IsPick(s.waiters, woken)
  {
    var e := Entry(s, id);
    if !e.IsWriter() then
      (s, NotHeld)
    else if e.writeCount > 1 then
      (s.(lockers := s.lockers[id := LockerInfo(e.readCount, e.writeCount - 1)]), Released(Write))
    else if e.IsReader() then
      (Lock(true, s.lockers[id := LockerInfo(e.readCount, 0)], NotifyReaders(s.waiters)), Released(Write))
    else
      (Lock(true, s.lockers - {id}, NotifyReaders(NotifyOne(s.waiters, woken))), Released(Write))
  }

  /** The timed wait of a sleeping call returns true: it was signalled, or the wakeup is spurious. */
  function Wake(s: Lock, id: Id): (Lock, Outcome)
    requires id in s.waiters
    requires s.waiters[id].kind == Upgrader ==> id in s.lockers
  {
    match s.waiters[id].kind
    case NewReader => TryRead(s, id)
    case NewWriter => TryWrite(s, id)
    case Upgrader => TryUpgrade(s, id)
  }

  /** The timed wait of a sleeping call returns false. */
  function TimeOut(s: Lock, id: Id): (Lock, Outcome)
    requires id in s.waiters
  {
    var s0 := s.(waiters := s.waiters - {id});
    var s' :=
      if s.waiters[id].kind == NewReader then s0
      else if Writers(s0) == {} then Lock(true, s.lockers, NotifyReaders(s0.waiters))
      else s0.(canRead := true);
    (s', TimedOut)
  }

  datatype Op =
    | AcquireReadOp(id: Id)
    | AcquireWriteOp(id: Id)
    | ReleaseReadOp(id: Id)
    | ReleaseWriteOp(id: Id, woken: Option<Id>)
    | WakeOp(id: Id)
    | TimeOutOp(id: Id)

  /** Each id has at most one call outstanding; a timeout strikes only unsignalled sleepers. */
  predicate Enabled(s: Lock, op: Op) {
    match op
    case WakeOp(id) => id in s.waiters && (IsUpgrading(s, id) ==> id in s.lockers)
    case TimeOutOp(id) => id in s.waiters && !s.waiters[id].signalled
    case ReleaseWriteOp(id, woken) =>
      id !in s.waiters && (IsFinalWrite(s, id) ==> IsPick(s.waiters, woken))
    case _ => op.id !in s.waiters
  }

  function Step(s: Lock, op: Op): (Lock, Outcome)
    requires Enabled(s, op)
  {
    match op
    case AcquireReadOp(id) => AcquireRead(s, id)
    case AcquireWriteOp(id) => AcquireWrite(s, id)
    case ReleaseReadOp(id) => ReleaseRead(s, id)
    case ReleaseWriteOp(id, woken) => ReleaseWrite(s, id, woken)
    case WakeOp(id) => Wake(s, id)
    case TimeOutOp(id) => TimeOut(s, id)
  }
}
