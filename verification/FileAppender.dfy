/** Log files and their rotation: the live file, and the backups 1 to maxBackupIndex, the oldest last. */
module FileAppender {
  import opened Common

  datatype Name = Live | Backup(i: nat)

  type Files = map<Name, string>

  /** A backup, if it is there. */
  function At(files: Files, i: nat): Option<string> {
    if Backup(i) in files then Some(files[Backup(i)]) else None
  }

  const NO_MAX_LOG_SIZE: nat := 0

  /** The size in bytes at which the live file is rotated, computed in 64 bits and compared signed. */
  function Limit(maxFileSize: nat): (limit: int)
    ensures limit <= maxFileSize * 1024
    ensures maxFileSize * 1024 < 0x8000_0000_0000_0000 ==> limit == maxFileSize * 1024
  {
    var bytes := maxFileSize * 1024 % 0x1_0000_0000_0000_0000;
    if bytes < 0x8000_0000_0000_0000 then bytes else bytes - 0x1_0000_0000_0000_0000
  }

  /** What a signed 64-bit number holds of the size in bytes. */
  lemma LimitWraps(maxFileSize: nat) returns (k: nat)
    ensures -0x8000_0000_0000_0000 <= Limit(maxFileSize) < 0x8000_0000_0000_0000
    ensures maxFileSize * 1024 == Limit(maxFileSize) + k * 0x1_0000_0000_0000_0000
  {
    var bytes, span := maxFileSize * 1024, 0x1_0000_0000_0000_0000;
    k := bytes / span + if bytes % span < 0x8000_0000_0000_0000 then 0 else 1;
  }

  // ----- what a message does to the files ------------------------------------------------

  /** Where a rotation moves a file. */
  function Moved(n: nat, name: Name): Name {
    match name
    case Live => Backup(1)
    case Backup(i) => if 1 <= i < n then Backup(i + 1) else name
  }

  function Rotated(files: Files, n: nat): Files {
    if n == 0 then files[Live := ""]
    else (map name | name in files && name != Backup(n) :: Moved(n, name) := files[name])[Live := ""]
  }

  function Appended(files: Files, text: string): Files {
    files[Live := (if Live in files then files[Live] else "") + text]
  }

  lemma AppendNothing(files: Files)
    ensures Appended(files, "") == if Live in files then files else files[Live := ""]
  {
    if Live in files {
      assert files[Live] + "" == files[Live];
      assert files[Live := files[Live]] == files;
    }
  }

  predicate MustRotate(maxFileSize: nat, files: Files)
    requires Live in files
  {
    maxFileSize != NO_MAX_LOG_SIZE && |files[Live]| >= Limit(maxFileSize)
  }

  function Logged(maxFileSize: nat, n: nat, files: Files, message: string): (r: Files)
    ensures Live in r
  {
    var written := Appended(files, message + "\n");
    if MustRotate(maxFileSize, written) then Rotated(written, n) else written
  }

  /** Where a file of the rotated system comes from. */
  lemma RotatedAt(files: Files, n: nat, i: nat)
    requires n > 0 && Live in files
    ensures At(Rotated(files, n), i) ==
              if i == 1 then Some(files[Live]) else if 1 < i <= n then At(files, i - 1) else At(files, i)
    ensures Rotated(files, n)[Live] == ""
  {
    if i == 1 {
      assert Moved(n, Live) == Backup(1);
    } else if 1 < i <= n {
      assert Moved(n, Backup(i - 1)) == Backup(i);
    } else {
      assert Moved(n, Backup(i)) == Backup(i);
    }
  }

  /** The backups from i on have moved up, those below and the live file have not. */
  ghost predicate MovedDownTo(before: Files, now: Files, n: nat, i: nat) {
    && 1 <= i <= n && At(now, i) == None
    && (forall k: nat :: i < k <= n ==> At(now, k) == At(before, k - 1))
    && (forall k: nat :: k < i || k > n ==> At(now, k) == At(before, k))
    && Live in now && Live in before && now[Live] == before[Live]
  }

  function Renamed(files: Files, from: Name, to: Name): Files {
    if from in files then (files - {from})[to := files[from]] else files
  }

  lemma MoveOne(before: Files, now: Files, n: nat, i: nat)
    requires 1 <= i && MovedDownTo(before, now, n, i + 1)
    ensures MovedDownTo(before, Renamed(now, Backup(i), Backup(i + 1)), n, i)
  {
    var next := Renamed(now, Backup(i), Backup(i + 1));
    forall k: nat
      ensures At(next, k) == if k == i then None else if k == i + 1 then At(now, i) else At(now, k)
    {
    }
    assert At(now, i) == At(before, i);
  }

  lemma SameFiles(a: Files, b: Files)
    requires Live in a && Live in b && a[Live] == b[Live] && forall i: nat :: At(a, i) == At(b, i)
    ensures a == b
  {
    forall name: Name
      ensures name in a <==> name in b
      ensures name in a ==> a[name] == b[name]
    {
      if name.Backup? {
        assert At(a, name.i) == At(b, name.i);
      }
    }
  }

  lemma RotationDone(before: Files, now: Files, n: nat)
    requires Live in before && MovedDownTo(before, now, n, 1)
    ensures Renamed(now, Live, Backup(1))[Live := ""] == Rotated(before, n)
  {
    var done := Renamed(now, Live, Backup(1))[Live := ""];
    forall i: nat ensures At(done, i) == At(Rotated(before, n), i) {
      RotatedAt(before, n, i);
      assert i != 1 ==> At(done, i) == At(now, i);
    }
    RotatedAt(before, n, 1);
    SameFiles(done, Rotated(before, n));
  }

  // ----- the appender --------------------------------------------------------------------

  /** The files and an open stream on the live one. */
  class FileAppender {
    const maxFileSize: nat
    const maxBackupIndex: nat
    var files: Files

    ghost predicate Valid()
      reads this
    {
      Live in files
    }

    /** Opening the live file for appending creates it if it is not there. */
    constructor (files: Files, maxFileSize: nat, maxBackupIndex: nat)
      ensures this.maxFileSize == maxFileSize && this.maxBackupIndex == maxBackupIndex
      ensures Valid() && this.files == Appended(files, "")
    {
      this.maxFileSize, this.maxBackupIndex := maxFileSize, maxBackupIndex;
      this.files := if Live in files then files else files[Live := ""];
      new;
      AppendNothing(files);
    }

    method RemoveFile(name: Name)
      modifies this
      ensures files == old(files) - {name}
    {
      files := files - {name};
    }

    /** It replaces a file of the new name, and fails if there is none of the old one. */
    method RenameFile(from: Name, to: Name) returns (ok: bool)
      modifies this
      requires from != to
      ensures ok <==> from in old(files)
      ensures files == Renamed(old(files), from, to)
    {
      ok := from in files;
      if ok {
        files := (files - {from})[to := files[from]];
      }
    }

    /** Drop the oldest backup and move the others up by one. No rename replaces a file. */
    method MoveBackups()
      requires Valid() && maxBackupIndex > 0
      modifies this
      ensures MovedDownTo(old(files), files, maxBackupIndex, 1)
    {
      RemoveFile(Backup(maxBackupIndex));
      var i := maxBackupIndex - 1;
      while i >= 1
        invariant 0 <= i < maxBackupIndex && MovedDownTo(old(files), files, maxBackupIndex, i + 1)
      {
        assert At(files, i + 1).None?;
        MoveOne(old(files), files, maxBackupIndex, i);
        var ok := RenameFile(Backup(i), Backup(i + 1));
        i := i - 1;
      }
    }

    /** The roll-over. */
    method Rotate()
      requires Valid()
      modifies this
      ensures files == Rotated(old(files), maxBackupIndex)
    {
      if maxBackupIndex > 0 {
        MoveBackups();
        RotationDone(old(files), files, maxBackupIndex);
        assert At(files, 1).None?;
        var ok := RenameFile(Live, Backup(1));
      }
      files := files[Live := ""];
    }

    /** doProcessLogMessage */
    method DoProcessLogMessage(formattedMessage: string)
      requires Valid()
      modifies this
      ensures Valid() && files == Logged(maxFileSize, maxBackupIndex, old(files), formattedMessage)
    {
      files := files[Live := files[Live] + (formattedMessage + "\n")];
      if maxFileSize != NO_MAX_LOG_SIZE && |files[Live]| >= Limit(maxFileSize) {
        Rotate();
      }
    }
  }

  // ----- history -------------------------------------------------------------------------

  function Content(files: Files, name: Name): string {
    if name in files then files[name] else ""
  }

  /** The backups from n down to 1, one after the other. */
  function Backups(files: Files, n: nat): string {
    if n == 0 then "" else Content(files, Backup(n)) + Backups(files, n - 1)
  }

  function History(files: Files, n: nat): string {
    Backups(files, n) + Content(files, Live)
  }

  lemma {:induction false} BackupsMove(files: Files, n: nat, k: nat)
    requires Live in files && k < n
    ensures Backups(Rotated(files, n), k + 1) == Backups(files, k) + files[Live]
  {
    RotatedAt(files, n, k + 1);
    var r := Rotated(files, n);
    if k == 0 {
      assert Backups(r, 1) == r[Backup(1)] + "";
      assert files[Live] + "" == files[Live] && "" + files[Live] == files[Live];
    } else {
      BackupsMove(files, n, k - 1);
      assert At(r, k + 1) == At(files, k);
      assert Content(r, Backup(k + 1)) == Content(files, Backup(k));
      Regroup(Content(files, Backup(k)), Backups(files, k - 1), files[Live]);
    }
  }

  /** The file that a rotation loses: the oldest backup, or the live file where there are no backups. */
  function Dropped(files: Files, n: nat): string {
    if n == 0 then Content(files, Live) else Content(files, Backup(n))
  }

  /** A rotation drops the oldest file and nothing else. */
  lemma RotationConserves(files: Files, n: nat)
    requires Live in files
    ensures Dropped(files, n) + History(Rotated(files, n), n) == History(files, n)
  {
    if n > 0 {
      BackupsMove(files, n, n - 1);
      RotatedAt(files, n, 1);
    }
  }

  lemma {:induction false} BackupsUnchanged(files: Files, text: string, n: nat)
    ensures Backups(files[Live := text], n) == Backups(files, n)
  {
    if n > 0 {
      BackupsUnchanged(files, text, n - 1);
    }
  }

  function DroppedBy(maxFileSize: nat, n: nat, files: Files, message: string): string {
    var written := Appended(files, message + "\n");
    if MustRotate(maxFileSize, written) then Dropped(written, n) else ""
  }

  lemma MessageConserves(maxFileSize: nat, n: nat, files: Files, message: string)
    ensures DroppedBy(maxFileSize, n, files, message) + History(Logged(maxFileSize, n, files, message), n) ==
            History(files, n) + (message + "\n")
  {
    var text := message + "\n";
    var written := Appended(files, text);
    BackupsUnchanged(files, Content(files, Live) + text, n);
    assert History(written, n) == Backups(files, n) + (Content(files, Live) + text);
    assert Backups(files, n) + (Content(files, Live) + text) == History(files, n) + text;
    if MustRotate(maxFileSize, written) {
      RotationConserves(written, n);
    } else {
      assert "" + History(written, n) == History(written, n);
    }
  }

  // ----- runs ----------------------------------------------------------------------------

  function After(maxFileSize: nat, n: nat, files: Files, messages: seq<string>): Files
    decreases |messages|
  {
    if messages == [] then files
    else After(maxFileSize, n, Logged(maxFileSize, n, files, messages[0]), messages[1..])
  }

  function AllDropped(maxFileSize: nat, n: nat, files: Files, messages: seq<string>): string
    decreases |messages|
  {
    if messages == [] then ""
    else DroppedBy(maxFileSize, n, files, messages[0]) +
         AllDropped(maxFileSize, n, Logged(maxFileSize, n, files, messages[0]), messages[1..])
  }

  function Written(messages: seq<string>): string {
    if messages == [] then "" else (messages[0] + "\n") + Written(messages[1..])
  }

  /** Over any run: what was dropped, the backups from the oldest on and the live file are together what
      was there before and what was written, in order. */
  lemma {:induction false} RunConserves(maxFileSize: nat, n: nat, files: Files, messages: seq<string>)
    ensures AllDropped(maxFileSize, n, files, messages) + History(After(maxFileSize, n, files, messages), n) ==
            History(files, n) + Written(messages)
    decreases |messages|
  {
    if messages == [] {
      assert "" + History(files, n) == History(files, n) + "";
    } else {
      var next := Logged(maxFileSize, n, files, messages[0]);
      MessageConserves(maxFileSize, n, files, messages[0]);
      RunConserves(maxFileSize, n, next, messages[1..]);
      Chain(DroppedBy(maxFileSize, n, files, messages[0]), AllDropped(maxFileSize, n, next, messages[1..]),
            History(After(maxFileSize, n, next, messages[1..]), n), History(next, n), Written(messages[1..]),
            History(files, n), messages[0] + "\n");
    }
  }

  lemma Chain(d: string, ds: string, end: string, next: string, others: string, start: string, text: string)
    requires ds + end == next + others && d + next == start + text
    ensures (d + ds) + end == start + (text + others)
  {
    calc {
      (d + ds) + end;
      d + (ds + end);
      d + (next + others);
      (d + next) + others;
      (start + text) + others;
      start + (text + others);
    }
  }

  /** After any message the live file is shorter than the maximum. */
  lemma LiveStaysShort(maxFileSize: nat, n: nat, files: Files, message: string)
    requires maxFileSize != NO_MAX_LOG_SIZE
    ensures |Logged(maxFileSize, n, files, message)[Live]| < maxFileSize * 1024
  {
    assert Limit(maxFileSize) <= maxFileSize * 1024;
  }

  /** A message stays in the live file, behind what was there, exactly if there is no limit or the two are
      shorter than the limit; otherwise the live file starts anew. */
  lemma LiveGrowsExactly(maxFileSize: nat, n: nat, files: Files, message: string)
    ensures var grown := Content(files, Live) + (message + "\n");
            && (Logged(maxFileSize, n, files, message)[Live] == grown <==>
                  maxFileSize == NO_MAX_LOG_SIZE || |grown| < Limit(maxFileSize))
            && (Logged(maxFileSize, n, files, message)[Live] != grown ==>
                  Logged(maxFileSize, n, files, message)[Live] == "")
  {
    var written := Appended(files, message + "\n");
    assert written[Live] == Content(files, Live) + (message + "\n");
    if n > 0 {
      RotatedAt(written, n, 1);
    }
  }

  /** Without a limit nothing is ever dropped, no backup changes, and the live file holds all that was written
      behind what was there. */
  lemma {:induction false} NoLimitKeepsAll(n: nat, files: Files, messages: seq<string>)
    ensures var after := After(NO_MAX_LOG_SIZE, n, files, messages);
            && AllDropped(NO_MAX_LOG_SIZE, n, files, messages) == ""
            && (forall i: nat :: At(after, i) == At(files, i))
            && Content(after, Live) == Content(files, Live) + Written(messages)
    decreases |messages|
  {
    if messages == [] {
      assert Content(files, Live) + "" == Content(files, Live);
    } else {
      var next := Logged(NO_MAX_LOG_SIZE, n, files, messages[0]);
      LiveGrowsExactly(NO_MAX_LOG_SIZE, n, files, messages[0]);
      NoLimitKeepsAll(n, next, messages[1..]);
      Regroup(Content(files, Live), messages[0] + "\n", Written(messages[1..]));
      assert forall i: nat :: At(next, i) == At(files, i);
    }
  }

  // ----- how much is kept ----------------------------------------------------------------

  /** Every backup has reached the limit, and there is none without the ones before it. */
  ghost predicate AreFull(limit: int, n: nat, files: Files) {
    forall i: nat :: 1 <= i <= n && At(files, i).Some? ==>
      |At(files, i).value| >= limit && (i > 1 ==> At(files, i - 1).Some?)
  }

  lemma RotationKeepsFull(limit: int, n: nat, files: Files)
    requires n > 0 && Live in files && |files[Live]| >= limit && AreFull(limit, n, files)
    ensures AreFull(limit, n, Rotated(files, n))
    ensures At(files, n).Some? ==> At(Rotated(files, n), n).Some?
  {
    var r := Rotated(files, n);
    forall i: nat | 1 <= i <= n && At(r, i).Some?
      ensures |At(r, i).value| >= limit && (i > 1 ==> At(r, i - 1).Some?)
    {
      RotatedAt(files, n, i);
      if i > 1 {
        RotatedAt(files, n, i - 1);
      }
    }
    RotatedAt(files, n, n);
  }

  lemma MessageKeepsFull(maxFileSize: nat, n: nat, files: Files, message: string)
    requires n > 0 && AreFull(Limit(maxFileSize), n, files)
    ensures AreFull(Limit(maxFileSize), n, Logged(maxFileSize, n, files, message))
    ensures At(files, n).Some? ==> At(Logged(maxFileSize, n, files, message), n).Some?
  {
    var written := Appended(files, message + "\n");
    forall i: nat ensures At(written, i) == At(files, i) {
    }
    if MustRotate(maxFileSize, written) {
      RotationKeepsFull(Limit(maxFileSize), n, written);
    }
  }

  lemma {:induction false} FullBackupsAreLong(limit: int, n: nat, k: nat, files: Files)
    requires AreFull(limit, n, files) && k <= n && (k > 0 ==> At(files, k).Some?)
    ensures |Backups(files, k)| >= k * limit
  {
    if k > 0 {
      FullBackupsAreLong(limit, n, k - 1, files);
      assert k * limit == (k - 1) * limit + limit;
    }
  }

  /** Starting without backups, nothing is dropped before the backups hold their full share: n times the
      limit at least, which is the maximum asked for where 64 bits hold it. */
  lemma {:induction false} DropsOnlyFromFullBackups(maxFileSize: nat, n: nat, files: Files, messages: seq<string>)
    requires n > 0 && AreFull(Limit(maxFileSize), n, files)
    ensures var after := After(maxFileSize, n, files, messages);
            && AreFull(Limit(maxFileSize), n, after)
            && (AllDropped(maxFileSize, n, files, messages) != "" || At(files, n).Some? ==>
                  At(after, n).Some? && |Backups(after, n)| >= n * Limit(maxFileSize))
    decreases |messages|
  {
    if messages == [] {
      if At(files, n).Some? {
        FullBackupsAreLong(Limit(maxFileSize), n, n, files);
      }
    } else {
      MessageKeepsFull(maxFileSize, n, files, messages[0]);
      DropsOnlyFromFullBackups(maxFileSize, n, Logged(maxFileSize, n, files, messages[0]), messages[1..]);
    }
  }
}
