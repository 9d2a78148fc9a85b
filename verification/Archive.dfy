/**
  Archiving a session is a two-resource commit: a file rename and a database row, tied together by a
  journal.  `Archive` and `Recover` are the two commands.  A command may die after any number of durable
  writes (`writes`), and each of its own operations may fail (`fault`).
*/
module Archive {
  import opened Common

  type Bytes = seq<nat>

  datatype Path = SourcePath | TargetPath | OtherPath

  /** The thread's row in the state database. */
  datatype Row = Row(path: Path, archived: bool)

  const ACTIVE_ROW := Row(SourcePath, false)
  const ARCHIVED_ROW := Row(TargetPath, true)

  datatype Phase = Prepared | Renamed

  /** The journal names the bytes by length and digest only. */
  datatype Journal = Journal(size: nat, digest: int, phase: Phase)

  /** How the database answered the commit. */
  datatype Commit =
    | Acknowledged
    | Lost(committed: bool, readable: bool)  // the commit returned an error; could the row be read back?
    | RouteMoved                             // not committed, and somebody else changed the row

  /** The first operation of `Archive` that fails, if any. */
  datatype Fault =
    | NoFault
    | PrepareFails(written: bool)            // writing the journal; a failed fsync leaves it written
    | BeforeRename                           // hook, transaction, revalidation, writer probe, target check, rename
    | AfterRename(phaseWritten: bool)        // fsync of the rename, second journal write, hook, update
    | CommitFails(how: Commit)

  /** What others do once the file was renamed, whatever the command does next, and what fails while it cleans up. */
  datatype Trouble = Trouble(
    intruder: Option<Bytes>,                 // bytes another process puts at the source after the rename
    overwritten: Option<Bytes>,              // bytes another process puts at the target after the rename
    renameBackFails: bool,
    syncBackFails: bool,                     // the file is back, and its fsync fails
    removeFails: bool)

  const QUIET := Trouble(None, None, false, false, false)

  datatype Result = Archived | ArchivedUnacknowledged | Aborted | Unknown | Refused | Crashed

  /** The operation of `Recover` that fails, if any. */
  datatype RecoveryFault = NoFailure | ReadFails | RenameFails | RenameSyncFails | RemovalFails | CommitLoses

  datatype Recovery = RolledBack | Finalized | NoJournal | Ambiguous | Stopped | CommitLost | Died

  class World {
    var source: Option<Bytes>
    var target: Option<Bytes>
    var journal: Option<Journal>
    var row: Row
    const digest: Bytes -> int               // SHA-256; nothing is assumed about collisions

    constructor (source: Option<Bytes>, target: Option<Bytes>, row: Row, digest: Bytes -> int)
      ensures this.source == source && this.target == target && this.row == row && this.digest == digest
      ensures journal == None
    {
      this.source, this.target, this.row, this.digest, this.journal := source, target, row, digest, None;
    }

    // -------------------------------------------------------------- what a state means

    /** A file with the size and digest of the original bytes. */
    predicate Same(file: Option<Bytes>, b: Bytes) {
      file.Some? && |file.value| == |b| && digest(file.value) == digest(b)
    }

    /** The original bytes are at exactly one of the two places, and nothing is at the other. */
    ghost predicate OnePlace(b: Bytes)
      reads this
    {
      (source == Some(b) && target == None) || (source == None && target == Some(b))
    }

    /** The row and the files agree. */
    ghost predicate Coherent(b: Bytes)
      reads this
    {
      (row == ACTIVE_ROW && Same(source, b) && target == None) ||
      (row == ARCHIVED_ROW && source == None && Same(target, b))
    }

    ghost predicate Names(j: Journal, b: Bytes)
    {
      j.size == |b| && j.digest == digest(b)
    }

    predicate Matches(file: Option<Bytes>, j: Journal) {
      file.Some? && |file.value| == j.size && digest(file.value) == j.digest
    }

    /** The states recovery can settle, read off the row and the two files. */
    ghost predicate Decidable(j: Journal)
      reads this
    {
      || (row == ACTIVE_ROW && Matches(source, j) && target == None)
      || (row == ACTIVE_ROW && source == None && Matches(target, j))
      || (row == ARCHIVED_ROW && source == None && Matches(target, j))
    }

    /** A journal is there, and it is enough to decide what to do. */
    ghost predicate Journalled(b: Bytes)
      reads this
    {
      journal.Some? && Names(journal.value, b) && Decidable(journal.value)
    }

    // -------------------------------------------------------------- rolling the rename back

    /** The rename back is made. */
    predicate GoesBack(b: Bytes, writes: nat, trouble: Trouble)
      reads this
    {
      source == None && Same(target, b) && !trouble.renameBackFails && writes > 0
    }

    /** Returns the number of durable writes still allowed, or None when the process died. */
    method RollbackFile(b: Bytes, writes: nat, trouble: Trouble) returns (ok: bool, left: Option<nat>)
      modifies this`source, this`target
      ensures old(GoesBack(b, writes, trouble)) ==> source == old(target) && target == None && left == Some(writes - 1)
      ensures !old(GoesBack(b, writes, trouble)) ==> source == old(source) && target == old(target)
      ensures !old(GoesBack(b, writes, trouble)) && left.Some? ==> left == Some(writes)
      ensures ok <==> old(GoesBack(b, writes, trouble)) && !trouble.syncBackFails
      ensures left.None? <==> old(source) == None && Same(old(target), b) && !trouble.renameBackFails && writes == 0
    {
      if source.Some? {
        return false, Some(writes);
      }
      if !Same(target, b) {
        return false, Some(writes);
      }
      if trouble.renameBackFails {
        return false, Some(writes);
      }
      if writes == 0 {
        return false, None;
      }
      source, target := target, None;
      return !trouble.syncBackFails, Some(writes - 1);
    }

    method RemoveJournal(writes: nat, trouble: Trouble) returns (alive: bool)
      modifies this`journal
      ensures alive <==> trouble.removeFails || writes > 0
      ensures journal == (if !trouble.removeFails && writes > 0 then None else old(journal))
    {
      if trouble.removeFails {
        return true;
      }
      if writes == 0 {
        return false;
      }
      journal := None;
      return true;
    }

    /** Somebody else occupies the source, or put other bytes at the target. */
    predicate Blocked(b: Bytes, trouble: Trouble) {
      trouble.intruder.Some? || (trouble.overwritten.Some? && !Same(trouble.overwritten, b))
    }

    /** What is at the target once the others acted. */
    function AtTarget(b: Bytes, trouble: Trouble): Option<Bytes> {
      if trouble.overwritten.Some? then trouble.overwritten else Some(b)
    }

    /** The file cannot go back. */
    predicate Stuck(b: Bytes, trouble: Trouble) {
      Blocked(b, trouble) || trouble.renameBackFails
    }

    /**
      The abort after the rename.  Most exits remove the journal whether or not the file went back
      (`guarded` is false); the exit after a refused commit keeps it when the file did not, or not durably.
    */
    method AbortRenamed(b: Bytes, writes: nat, trouble: Trouble, guarded: bool) returns (r: Result)
      requires source == trouble.intruder && target == AtTarget(b, trouble)
      modifies this`source, this`target, this`journal
      ensures r == Aborted || r == Crashed
      ensures trouble.intruder.None? && trouble.overwritten.None? ==> OnePlace(b)
      ensures trouble.overwritten.None? ==> source == Some(b) || target == Some(b)
      ensures Stuck(b, trouble) ==>
        && source == trouble.intruder && target == AtTarget(b, trouble)
        && journal == (if !guarded && !trouble.removeFails && writes > 0 then None else old(journal))
      ensures !Stuck(b, trouble) ==>
        && (if writes > 0 then Same(source, b) && target == None else source == None && Same(target, b))
        && (journal == None || journal == old(journal))
        && (journal == None && old(journal).Some? ==> writes > 0)
        && (guarded && trouble.syncBackFails ==> journal == old(journal))
      ensures r == Aborted ==>
                journal == if trouble.removeFails || (guarded && (Stuck(b, trouble) || trouble.syncBackFails))
                           then old(journal) else None
      ensures r == Aborted ==> (target.Some? <==> Stuck(b, trouble))
      ensures writes >= 2 ==> r == Aborted
    {
      var ok, left := RollbackFile(b, writes, trouble);
      if left.None? {
        return Crashed;
      }
      if guarded && !ok {
        return Aborted;
      }
      var alive := RemoveJournal(left.value, trouble);
      return if alive then Aborted else Crashed;
    }

    // -------------------------------------------------------------- archive

    /** The rename is made. */
    predicate Renames(fault: Fault, writes: nat) {
      !fault.PrepareFails? && !fault.BeforeRename? && writes >= 2
    }

    /** No operation fails up to and including the commit. */
    predicate Succeeds(fault: Fault) {
      fault.NoFault? || fault == CommitFails(Acknowledged)
    }

    /** The commit is acknowledged and the journal removed. */
    predicate Completes(fault: Fault, writes: nat, trouble: Trouble) {
      Succeeds(fault) && writes > 4 && !trouble.removeFails
    }

    /**
      The command loses track of the file exactly here: an unguarded exit drops the journal although the file could
      not go back, or the command completes although others had touched the two paths.
    */
    predicate LosesTrack(b: Bytes, fault: Fault, writes: nat, trouble: Trouble)
    {
      || (fault.AfterRename? && Stuck(b, trouble) && !trouble.removeFails
          && writes > (if fault.phaseWritten then 3 else 2))
      || (Completes(fault, writes, trouble) && Blocked(b, trouble))
    }

    /** Somebody else's bytes or row are in the way; the journal stays for a person to decide. */
    predicate Disputed(b: Bytes, fault: Fault, writes: nat, trouble: Trouble) {
      || (fault == CommitFails(RouteMoved) && writes >= 3)
      || (Renames(fault, writes) && Blocked(b, trouble) && !LosesTrack(b, fault, writes, trouble))
    }

    /** An abort leaves its journal behind. */
    predicate KeepsJournal(b: Bytes, fault: Fault, trouble: Trouble) {
      || fault == PrepareFails(true)
      || (trouble.removeFails && !fault.PrepareFails?)
      || (fault == CommitFails(Lost(false, true)) && (Stuck(b, trouble) || trouble.syncBackFails))
    }

    /** The answer of a command that is not refused and does not die. */
    function Outcome(fault: Fault): Result {
      match fault
      case CommitFails(Lost(committed, readable)) =>
        if !readable then Unknown else if committed then ArchivedUnacknowledged else Aborted
      case CommitFails(RouteMoved) => Unknown
      case _ => if Succeeds(fault) then Archived else Aborted
    }

    /** The database commit happens. */
    predicate Commits(fault: Fault, writes: nat)
    {
      writes > 3 && (fault.NoFault? || (fault.CommitFails?
        && (fault.how.Acknowledged? || (fault.how.Lost? && fault.how.committed))))
    }

    /** The rename is made, and others acted; `writes` counts from the beginning of the command. */
    ghost predicate JustRenamed(b: Bytes, trouble: Trouble, phase: Phase)
      reads this
    {
      && source == trouble.intruder && target == AtTarget(b, trouble) && row == ACTIVE_ROW
      && journal.Some? && Names(journal.value, b) && journal.value.phase == phase
    }

    /** What is true of every answer after the rename. */
    ghost predicate Ended(b: Bytes, writes: nat, fault: Fault, trouble: Trouble, r: Result)
      reads this
    {
      && EndsWell(b, writes, fault, trouble, r) && Accounted(b, writes, fault, trouble)
    }

    ghost predicate EndsWell(b: Bytes, writes: nat, fault: Fault, trouble: Trouble, r: Result)
      reads this
    {
      && (r == Crashed || r == Outcome(fault)) && (r == Crashed ==> writes < 5)
      && (r == Archived <==> Succeeds(fault) && writes > (if trouble.removeFails then 3 else 4))
      && (r == Archived || r == ArchivedUnacknowledged ==>
            row == ARCHIVED_ROW && (Coherent(b) <==> !Blocked(b, trouble)))
      && (r == Archived && !trouble.removeFails ==> journal == None)
      && (r == Aborted ==> row == ACTIVE_ROW && (journal.Some? <==> KeepsJournal(b, fault, trouble)))
      && (r == Aborted ==> (target.Some? <==> Stuck(b, trouble)))
      && (journal.Some? ==> (journal.value.phase == Renamed <==> writes >= 3 && fault != AfterRename(false)))
    }

    ghost predicate Accounted(b: Bytes, writes: nat, fault: Fault, trouble: Trouble)
      reads this
    {
      && (trouble.overwritten.None? ==> source == Some(b) || target == Some(b))
      && (trouble.intruder.None? && trouble.overwritten.None? ==> OnePlace(b))
      && (row == ARCHIVED_ROW ==> target == AtTarget(b, trouble) && source == trouble.intruder)
      && (row == ARCHIVED_ROW <==> Commits(fault, writes))
      && (row == ACTIVE_ROW || row == ARCHIVED_ROW || fault == CommitFails(RouteMoved))
      && (journal.None? || Names(journal.value, b))
      && (!Coherent(b) && journal.None? <==> LosesTrack(b, fault, writes, trouble))
      && (journal.Some? && !Decidable(journal.value) <==> Disputed(b, fault, writes, trouble))
    }

    /** The command from the rename on. */
    method AfterTheRename(b: Bytes, writes: nat, fault: Fault, trouble: Trouble) returns (r: Result)
      requires JustRenamed(b, trouble, Prepared) && Renames(fault, writes)
      modifies this
      ensures Ended(b, writes, fault, trouble, r)
    {
      var left := writes - 2;
      var pending := journal.value;
      if fault == AfterRename(false) {
        r := AbortRenamed(b, left, trouble, false);
        return;
      }
      if left == 0 {
        return Crashed;
      }
      journal, left := Some(pending.(phase := Renamed)), left - 1;
      if fault.AfterRename? {
        r := AbortRenamed(b, left, trouble, false);
        return;
      }
      if !Succeeds(fault) {
        r := AfterLostCommit(b, writes, fault, trouble);
        return;
      }
      if left == 0 {
        return Crashed;
      }
      row, left := ARCHIVED_ROW, left - 1;
      var alive := RemoveJournal(left, trouble);
      return if alive then Archived else Crashed;
    }

    /** The commit returned an error: the row is read back and decides. */
    method AfterLostCommit(b: Bytes, writes: nat, fault: Fault, trouble: Trouble) returns (r: Result)
      requires JustRenamed(b, trouble, Renamed) && writes >= 3 && fault.CommitFails? && !fault.how.Acknowledged?
      modifies this
      ensures Ended(b, writes, fault, trouble, r)
    {
      var left := writes - 3;
      match fault.how {
        case Lost(committed, readable) =>
          if committed {
            if left == 0 {
              return Crashed;
            }
            row := ARCHIVED_ROW;
          }
          if !readable {
            return Unknown;
          }
          if row == ARCHIVED_ROW {
            return ArchivedUnacknowledged;
          }
          r := AbortRenamed(b, left, trouble, true);
          return;
        case RouteMoved =>
          row := Row(OtherPath, false);
          return Unknown;
      }
    }

    method Archive(b: Bytes, writes: nat, fault: Fault, trouble: Trouble) returns (r: Result)
      requires source.Some? ==> source == Some(b)
      modifies this
      // refused calls change nothing
      ensures r == Refused <==> old(source).None? || old(target).Some? || old(row) != ACTIVE_ROW || old(journal).Some?
      ensures r == Refused ==>
                source == old(source) && target == old(target) && row == old(row) && journal == old(journal)
      // the original bytes are lost only to another process, and are at exactly one place when none interferes
      ensures r != Refused && trouble.overwritten.None? ==> source == Some(b) || target == Some(b)
      ensures r != Refused && trouble.intruder.None? && trouble.overwritten.None? ==> OnePlace(b)
      // the row says "archived" only of a file that is there
      ensures r != Refused && row == ARCHIVED_ROW ==> target == AtTarget(b, trouble) && source == trouble.intruder
      ensures r != Refused ==> (row == ARCHIVED_ROW <==> Commits(fault, writes))
      ensures r == Archived || r == ArchivedUnacknowledged ==>
                row == ARCHIVED_ROW && (Coherent(b) <==> !Blocked(b, trouble))
      ensures r != Refused ==>
                (r == Archived <==> Succeeds(fault) && writes > (if trouble.removeFails then 3 else 4))
      ensures r == Archived && !trouble.removeFails ==> journal == None
      // five durable writes are enough for every answer; an abort leaves the row, and its journal only when it has to
      ensures r == Refused || r == Crashed || r == Outcome(fault)
      ensures r == Crashed ==> writes < 5
      ensures r == Aborted ==> row == ACTIVE_ROW && (journal.Some? <==> KeepsJournal(b, fault, trouble))
      ensures r == Aborted ==> (target.Some? <==> Renames(fault, writes) && Stuck(b, trouble))
      ensures r == Aborted && !Renames(fault, writes) ==> source == old(source)
      ensures r != Refused && journal.Some? ==>
                (journal.value.phase == Renamed <==>
                  Renames(fault, writes) && writes >= 3 && fault != AfterRename(false))
      // a state that does not cohere keeps its journal, except in exactly two families
      ensures r != Refused ==> journal.None? || Names(journal.value, b)
      ensures r != Refused ==> (!Coherent(b) && journal.None? <==> LosesTrack(b, fault, writes, trouble))
      ensures r != Refused ==> (journal.Some? && !Decidable(journal.value) <==> Disputed(b, fault, writes, trouble))
      ensures r != Refused ==> row == ACTIVE_ROW || row == ARCHIVED_ROW || fault == CommitFails(RouteMoved)
    {
      if source.None? || target.Some? || row != ACTIVE_ROW || journal.Some? {
        return Refused;
      }
      var left := writes;
      var pending := Journal(|b|, digest(b), Prepared);
      if fault == PrepareFails(false) {
        return Aborted;
      }
      if left == 0 {
        return Crashed;
      }
      journal, left := Some(pending), left - 1;
      if fault.PrepareFails? {
        return Aborted;
      }
      if fault.BeforeRename? {
        var alive := RemoveJournal(left, trouble);
        return if alive then Aborted else Crashed;
      }
      if left == 0 {
        return Crashed;
      }
      source, target := trouble.intruder, AtTarget(b, trouble);
      r := AfterTheRename(b, writes, fault, trouble);
    }

    // -------------------------------------------------------------- recover

    /** Durable writes an uninterrupted recovery makes. */
    ghost function Needed(): nat
      reads this
    {
      if row == ACTIVE_ROW && source == None then 2 else 1
    }

    /** The failing operation is one that this recovery performs before its commit. */
    ghost predicate Blocks(fault: RecoveryFault)
      reads this
    {
      match fault
      case NoFailure => false
      case ReadFails => true
      case RenameFails => Needed() == 2
      case RenameSyncFails => Needed() == 2
      case RemovalFails => true
      case CommitLoses => false
    }

    method Recover(writes: nat, fault: RecoveryFault) returns (r: Recovery)
      modifies this
      ensures row == old(row)
      ensures r == NoJournal <==> old(journal).None?
      ensures r == Ambiguous <==> old(journal).Some? && !fault.ReadFails? && !old(Decidable(journal.value))
      ensures r == NoJournal || r == Ambiguous || fault.ReadFails? ==>
        source == old(source) && target == old(target) && journal == old(journal)
      // finished recoveries: the file follows the row
      ensures r == RolledBack ==> old(row) == ACTIVE_ROW && source.Some? && target == None && journal == None
      ensures r == Finalized ==> old(row) == ARCHIVED_ROW && target.Some? && source == None && journal == None
      ensures r == RolledBack || r == Finalized || r == CommitLost <==>
        old(journal).Some? && old(Decidable(journal.value)) && writes >= old(Needed()) && !old(Blocks(fault))
      ensures r == CommitLost ==> fault.CommitLoses?
      ensures r == Died ==> writes < old(Needed())
      ensures r == Stopped ==> old(Blocks(fault))
      // bytes move, they do not change
      ensures (source == old(source) && target == old(target)) ||
              (source == old(target) && target == old(source) == None)
      // from a journalled state: settled, or still journalled
      ensures forall b :: old(Journalled(b)) ==>
        && r != NoJournal && r != Ambiguous
        && (r == Died || r == Stopped ==> Journalled(b))
        && (r != Died && r != Stopped ==> journal == None && Coherent(b))
        && (r == Finalized ==> old(row) == ARCHIVED_ROW)
        && (r == RolledBack ==> Same(source, b))
    {
      if journal.None? {
        return NoJournal;
      }
      if fault.ReadFails? {
        return Stopped;
      }
      var pending := journal.value;
      var sourceExists, sourceMatches := source.Some?, Matches(source, pending);
      var targetExists, targetMatches := target.Some?, Matches(target, pending);
      var left := writes;
      if !row.archived && row.path == SourcePath {
        if sourceExists && sourceMatches && !targetExists {
        } else if !sourceExists && targetExists && targetMatches {
          if fault.RenameFails? {
            return Stopped;
          }
          if left == 0 {
            return Died;
          }
          source, target, left := target, None, left - 1;
          if fault.RenameSyncFails? {
            return Stopped;
          }
        } else {
          return Ambiguous;
        }
        r := RolledBack;
      } else if row.archived && row.path == TargetPath {
        if sourceExists || !targetExists || !targetMatches {
          return Ambiguous;
        }
        r := Finalized;
      } else {
        return Ambiguous;
      }
      if fault.RemovalFails? {
        return Stopped;
      }
      if left == 0 {
        return Died;
      }
      journal := None;
      if fault.CommitLoses? {
        return CommitLost;
      }
    }

    // -------------------------------------------------------------- the whole story

    /**
      An archive that dies or fails anywhere, then recoveries that die or fail anywhere, then one that is left
      alone.  The row says archived exactly when the database commit happened.  Unless the command lost track or
      the state is disputed, row and files agree at the end and the journal is gone.
    */
    method ArchiveThenRecover(b: Bytes, writes: nat, fault: Fault, trouble: Trouble,
                              attempts: seq<(nat, RecoveryFault)>)
      returns (archived: bool, last: Recovery)
      requires source == Some(b) && target == None && row == ACTIVE_ROW && journal == None
      modifies this
      ensures archived <==> row == ARCHIVED_ROW
      ensures archived <==> Commits(fault, writes)
      ensures LosesTrack(b, fault, writes, trouble) ==> !Coherent(b) && journal == None && last == NoJournal
      ensures Disputed(b, fault, writes, trouble) ==> !Coherent(b) && journal.Some? && last == Ambiguous
      ensures !LosesTrack(b, fault, writes, trouble) && !Disputed(b, fault, writes, trouble) ==>
                Coherent(b) && journal == None
      ensures trouble.intruder.None? && trouble.overwritten.None? ==> OnePlace(b)
      ensures trouble.overwritten.None? ==> source == Some(b) || target == Some(b)
    {
      var r := Archive(b, writes, fault, trouble);
      for i := 0 to |attempts|
        invariant row == ARCHIVED_ROW <==> Commits(fault, writes)
        invariant Told(b, fault, writes, trouble)
        invariant trouble.intruder.None? && trouble.overwritten.None? ==> OnePlace(b)
        invariant trouble.overwritten.None? ==> source == Some(b) || target == Some(b)
      {
        var stopped := Recover(attempts[i].0, attempts[i].1);
      }
      last := Recover(2, NoFailure);
      archived := row == ARCHIVED_ROW;
    }

    /** Lost, disputed, still journalled, or settled. */
    ghost predicate Told(b: Bytes, fault: Fault, writes: nat, trouble: Trouble)
      reads this
    {
      if LosesTrack(b, fault, writes, trouble) then !Coherent(b) && journal.None?
      else if Disputed(b, fault, writes, trouble) then !Coherent(b) && journal.Some? && !Decidable(journal.value)
      else Journalled(b) || (Coherent(b) && journal.None?)
    }
  }

  /**
    An abort that had no reason to keep its journal, and whose file others did not keep from going back, can be tried
    again at once; nothing is left over that would refuse or fail it.
  */
  method AbortThenRetry(w: World, b: Bytes, writes: nat, fault: Fault, trouble: Trouble)
    returns (first: Result, second: Result)
    requires w.source == Some(b) && w.target == None && w.row == ACTIVE_ROW && w.journal == None
    modifies w
    ensures first == Aborted ==>
              second == if w.KeepsJournal(b, fault, trouble) || w.LosesTrack(b, fault, writes, trouble) then Refused
                        else Archived
    ensures first == Aborted && second == Archived ==>
              w.row == ARCHIVED_ROW && w.Same(w.target, b) && w.source == None && w.journal == None
    ensures second == Archived && trouble.overwritten.None? ==> w.target == Some(b)
  {
    first := w.Archive(b, writes, fault, trouble);
    second := Refused;
    if first == Aborted {
      second := w.Archive(if w.source.Some? then w.source.value else b, 5, NoFault, QUIET);
    }
  }

  /** An abort whose rename back fails: the row says active, the source is gone, and nothing remembers the target. */
  method LosesJournal(b: Bytes, digest: Bytes -> int) returns (w: World, r: Recovery)
    ensures w.row == ACTIVE_ROW && w.source == None && w.target == Some(b) && w.journal == None && r == NoJournal
  {
    w := new World(Some(b), None, ACTIVE_ROW, digest);
    var aborted := w.Archive(b, 4, AfterRename(true), QUIET.(renameBackFails := true));
    r := w.Recover(2, NoFailure);
  }

  /** A file that appears at the source while the command commits: both places are taken, and no journal is left. */
  method CommitsOverIntruder(b: Bytes, other: Bytes, digest: Bytes -> int)
    returns (w: World, reported: Result, r: Recovery)
    ensures reported == Archived && w.row == ARCHIVED_ROW && w.source == Some(other) && w.target == Some(b)
    ensures w.journal == None && r == NoJournal
  {
    w := new World(Some(b), None, ACTIVE_ROW, digest);
    reported := w.Archive(b, 5, NoFault, QUIET.(intruder := Some(other)));
    r := w.Recover(2, NoFailure);
  }
}
