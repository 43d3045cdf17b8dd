/** Moving an uploaded replacement archive to its final name, through a record written ahead of the move.
    A run may stop between any two file operations, and a rename may take effect and report failure. */
module ArchiveMove {
  import opened Options

  /** A regular file: its device and inode number, and its size. */
  datatype Inode = Inode(dev: nat, ino: nat, size: nat)

  /** A field of the record that should hold a decimal number as text. */
  datatype IdField = Digits(n: nat) | OtherText | NotText

  datatype Record = Record(partial: string, final: string, dev: IdField, ino: IdField, size: int)

  /** What stands at the record's path. */
  datatype RecordFile = NoRecord | Unreadable | NotAnObject | Parsed(record: Record)

  datatype Outcome = Placed | Refused | Stopped

  datatype DiscardOutcome = Finished | Rejected | Interrupted

  /** The three names one upload is about. */
  datatype State = State(partial: Option<Inode>, final: Option<Inode>, record: RecordFile)

  function RecordOf(partial: string, final: string, staged: Inode): Record {
    Record(partial, final, Digits(staged.dev), Digits(staged.ino), staged.size)
  }

  /** The record is for this upload. */
  predicate IsFor(r: Record, partial: string, final: string, size: nat) {
    r.partial == partial && r.final == final && r.size == size && !r.dev.NotText? && !r.ino.NotText?
  }

  /** The file found is the one the record names, with the upload's size. */
  predicate Names(r: Record, found: Option<Inode>, size: nat) {
    found.Some? && r.dev == Digits(found.value.dev) && r.ino == Digits(found.value.ino) &&
    found.value.size == size
  }

  /** The record the move goes by: the one on disk, or the one a first run writes. */
  ghost function Governing(s: State, partial: string, final: string, size: nat): Option<Record> {
    match s.record
    case NoRecord =>
      if s.partial.Some? && s.partial.value.size == size
      then Some(RecordOf(partial, final, s.partial.value)) else None
    case Parsed(r) => if IsFor(r, partial, final, size) then Some(r) else None
    case _ => None
  }

  /** Everywhere a run of the move can stop: nothing done, the record written, or the file moved as well. */
  ghost predicate PlaceStep(s: State, t: State, partial: string, final: string, size: nat) {
    var r := Governing(s, partial, final, size);
    || t == s
    || (r.Some? && s.record == NoRecord && t == s.(record := Parsed(r.value)))
    || (r.Some? && Names(r.value, s.partial, size) && s.final == None &&
        t == State(None, s.partial, Parsed(r.value)))
  }

  /** Exactly when a run nothing interrupts ends with the upload at its final name. */
  ghost predicate CanPlace(s: State, partial: string, final: string, size: nat) {
    var r := Governing(s, partial, final, size);
    r.Some? &&
    (s.partial.Some? ==> Names(r.value, s.partial, size)) &&
    (Names(r.value, s.final, size) || (s.partial.Some? && s.final == None))
  }

  /** The identity in the record, when both fields are decimal. Its size is not compared. */
  predicate SameFile(r: Record, found: Inode) {
    r.dev == Digits(found.dev) && r.ino == Digits(found.ino)
  }

  predicate Discards(record: RecordFile, partial: string, final: string, size: nat) {
    record.Parsed? && IsFor(record.record, partial, final, size) &&
    record.record.dev.Digits? && record.record.ino.Digits?
  }

  /** What a discard nothing interrupts leaves. */
  ghost function Discarded(s: State, partial: string, final: string, size: nat): State {
    if !Discards(s.record, partial, final, size) then s
    else if s.final.Some? && !SameFile(s.record.record, s.final.value) then s
    else s.(final := None, record := NoRecord)
  }

  /** Everywhere a discard can stop. */
  ghost predicate DiscardStep(s: State, t: State, partial: string, final: string, size: nat) {
    || t == s
    || t == Discarded(s, partial, final, size)
    || (Discarded(s, partial, final, size) != s && t == s.(final := None))
  }

  class Disk {
    var files: map<string, Inode>
    /** The record files, by the final name they belong to. */
    var records: map<string, RecordFile>
    /** How many operations failed or were cut off by the process dying, not counting a rename that took
        effect and only reported failure. */
    ghost var broken: nat

    ghost function View(partial: string, final: string): State
      reads this
    {
      State(Found(files, partial), Found(files, final),
            if final in records then records[final] else NoRecord)
    }

    ghost predicate OthersKept(files': map<string, Inode>, records': map<string, RecordFile>,
                               partial: string, final: string)
      reads this
    {
      && files - {partial, final} == files' - {partial, final}
      && records - {final} == records' - {final}
    }

    method IdentityAt(path: string) returns (ok: bool, found: Option<Inode>)
      modifies this`broken
      ensures ok ==> found == Found(files, path)
      ensures broken == old(broken) + (if ok then 0 else 1)
    {
      if * { broken := broken + 1; return false, None; }
      return true, if path in files then Some(files[path]) else None;
    }

    method ReadRecord(final: string) returns (ok: bool, saved: RecordFile)
      modifies this`broken
      ensures ok ==> saved == if final in records then records[final] else NoRecord
      ensures broken == old(broken) + (if ok then 0 else 1)
    {
      if * { broken := broken + 1; return false, NoRecord; }
      return true, if final in records then records[final] else NoRecord;
    }

    /** Atomic: all of the record or none of it. */
    method WriteRecord(final: string, r: Record) returns (ok: bool)
      modifies this`records, this`broken
      ensures records == old(records) || records == old(records)[final := Parsed(r)]
      ensures ok ==> records == old(records)[final := Parsed(r)]
      ensures broken == old(broken) + (if ok then 0 else 1)
    {
      if * { broken := broken + 1; return false; }
      records := records[final := Parsed(r)];
      if * { broken := broken + 1; return false; }
      return true;
    }

    /** A rename that never replaces. It can fail because something stands at `to`, fail or be cut off
        with or without effect, or take effect and report failure. `died` is the process ending. */
    method RenameNoReplace(from: string, to: string) returns (ok: bool, died: bool)
      requires from in files && from != to
      modifies this`files, this`broken
      ensures files == old(files) || (to !in old(files) && files == (old(files) - {from})[to := old(files)[from]])
      ensures ok ==> to !in old(files) && files == (old(files) - {from})[to := old(files)[from]]
      ensures ok ==> !died
      ensures died ==> broken == old(broken) + 1
      ensures broken == old(broken) && to !in old(files) ==>
                files == (old(files) - {from})[to := old(files)[from]]
      ensures broken >= old(broken)
    {
      if * { broken := broken + 1; return false, true; }
      if to in files { return false, false; }
      if * { broken := broken + 1; return false, false; }
      files := (files - {from})[to := files[from]];
      if * { broken := broken + 1; return false, true; }
      if * { return false, false; }
      return true, false;
    }

    method RemoveIfIdentity(path: string, dev: nat, ino: nat) returns (ok: bool, kept: bool)
      modifies this`files, this`broken
      ensures files == old(files) ||
                (path in old(files) && old(files)[path].dev == dev && old(files)[path].ino == ino &&
                 files == old(files) - {path})
      ensures ok && kept ==> path in files && !(files[path].dev == dev && files[path].ino == ino)
      ensures ok && !kept ==> path !in files
      ensures ok && kept ==> files == old(files)
      ensures broken == old(broken) + (if ok then 0 else 1)
    {
      if * { broken := broken + 1; return false, true; }
      if path !in files { return true, false; }
      if files[path].dev != dev || files[path].ino != ino { return true, true; }
      files := files - {path};
      if * { broken := broken + 1; return false, true; }
      return true, false;
    }

    method RemoveRecord(final: string) returns (ok: bool)
      modifies this`records, this`broken
      ensures records == old(records) || records == old(records) - {final}
      ensures ok ==> records == old(records) - {final}
      ensures broken == old(broken) + (if ok then 0 else 1)
    {
      if * { broken := broken + 1; return false; }
      records := records - {final};
      if * { broken := broken + 1; return false; }
      return true;
    }
  }

  ghost function Found(files: map<string, Inode>, path: string): Option<Inode> {
    if path in files then Some(files[path]) else None
  }

  lemma OwnRecordNames(partial: string, final: string, size: nat)
    ensures forall u: Inode :: u.size == size ==>
              && IsFor(RecordOf(partial, final, u), partial, final, size)
              && Names(RecordOf(partial, final, u), Some(u), size)
    ensures forall r: Record :: !Names(r, None, size)
  {
  }

  /** A record is for the upload and names the file found exactly if it is the one a move of that file writes. */
  lemma OnlyOwnRecordsName(r: Record, found: Inode, partial: string, final: string, size: nat)
    ensures IsFor(r, partial, final, size) && Names(r, Some(found), size) <==>
              r == RecordOf(partial, final, found) && found.size == size
  {
  }

  /** A discard goes by a record exactly if it is one a move of this upload writes, and then takes a file of the
      identity in it and no other. */
  lemma OnlyOwnRecordsDiscard(r: Record, partial: string, final: string, size: nat)
    ensures Discards(Parsed(r), partial, final, size) <==>
              exists dev, ino :: r == RecordOf(partial, final, Inode(dev, ino, size))
    ensures forall dev, ino, found: Inode :: r == RecordOf(partial, final, Inode(dev, ino, size)) ==>
              (SameFile(r, found) <==> found.dev == dev && found.ino == ino)
  {
    if Discards(Parsed(r), partial, final, size) {
      assert r == RecordOf(partial, final, Inode(r.dev.n, r.ino.n, size));
    }
  }

  method PlaceReplacementArchive(disk: Disk, partial: string, final: string, size: nat)
    returns (outcome: Outcome)
    requires partial != final
    modifies disk
    ensures PlaceStep(old(disk.View(partial, final)), disk.View(partial, final), partial, final, size)
    ensures disk.OthersKept(old(disk.files), old(disk.records), partial, final)
    ensures outcome == Placed ==>
              var t := disk.View(partial, final);
              t.record.Parsed? && IsFor(t.record.record, partial, final, size) &&
              Names(t.record.record, t.final, size)
    ensures disk.broken == old(disk.broken) ==>
              outcome == if CanPlace(old(disk.View(partial, final)), partial, final, size)
                         then Placed else Refused
  {
    hide IsFor, Names, RecordOf;
    OwnRecordNames(partial, final, size);
    var ok, staged := disk.IdentityAt(partial);
    if !ok { return Stopped; }
    var saved;
    ok, saved := disk.ReadRecord(final);
    if !ok { return Stopped; }
    var intent: Record;
    match saved {
      case NoRecord =>
        if staged.None? || staged.value.size != size { return Refused; }
        intent := RecordOf(partial, final, staged.value);
        ok := disk.WriteRecord(final, intent);
        if !ok { return Stopped; }
      case Unreadable => return Refused;
      case NotAnObject => return Refused;
      case Parsed(r) =>
        if !IsFor(r, partial, final, size) { return Refused; }
        intent := r;
    }
    var found;
    if staged.Some? {
      if !Names(intent, staged, size) { return Refused; }
      var died;
      ok, died := disk.RenameNoReplace(partial, final);
      if died { return Stopped; }
      if !ok {
        ok, found := disk.IdentityAt(final);
        if !ok { return Stopped; }
        if !Names(intent, found, size) { return Refused; }
      }
    }
    ok, found := disk.IdentityAt(final);
    if !ok { return Stopped; }
    if !Names(intent, found, size) { return Refused; }
    return Placed;
  }

  method DiscardReplacementArchive(disk: Disk, partial: string, final: string, size: nat)
    returns (outcome: DiscardOutcome)
    requires partial != final
    modifies disk
    ensures DiscardStep(old(disk.View(partial, final)), disk.View(partial, final), partial, final, size)
    ensures disk.OthersKept(old(disk.files), old(disk.records), partial, final)
    ensures disk.broken == old(disk.broken) ==>
              disk.View(partial, final) == Discarded(old(disk.View(partial, final)), partial, final, size)
    ensures disk.broken == old(disk.broken) ==>
              (outcome == Rejected <==> old(disk.View(partial, final)).record == Unreadable)
    ensures outcome == Interrupted ==> disk.broken > old(disk.broken)
  {
    var ok, saved := disk.ReadRecord(final);
    if !ok { return Interrupted; }
    match saved {
      case NoRecord => return Finished;
      case Unreadable => return Rejected;
      case NotAnObject => return Finished;
      case Parsed(r) =>
        if !Discards(saved, partial, final, size) { return Finished; }
        var kept;
        ok, kept := disk.RemoveIfIdentity(final, r.dev.n, r.ino.n);
        if !ok { return Interrupted; }
        if !kept {
          ok := disk.RemoveRecord(final);
          if !ok { return Interrupted; }
        }
    }
    return Finished;
  }

  // ---- Any number of runs, each stopping anywhere ----

  ghost predicate PlaceRuns(run: seq<State>, partial: string, final: string, size: nat) {
    |run| > 0 && forall i :: 0 <= i < |run| - 1 ==> PlaceStep(run[i], run[i + 1], partial, final, size)
  }

  /** The upload `u` is staged and `was` stands at the final name: nothing, or another file. */
  ghost predicate Uploaded(s: State, u: Inode, was: Option<Inode>) {
    s == State(Some(u), was, NoRecord) &&
    (was.Some? ==> !(was.value.dev == u.dev && was.value.ino == u.ino))
  }

  /** The upload is at exactly one of the two names, and at the final one only under a record naming it. */
  ghost predicate Safe(s: State, u: Inode, was: Option<Inode>, partial: string, final: string) {
    var r := Parsed(RecordOf(partial, final, u));
    || (s.partial == Some(u) && s.final == was && (s.record == NoRecord || s.record == r))
    || (was == None && s == State(None, Some(u), r))
  }

  lemma {:induction false} MoveIsCrashSafe(run: seq<State>, u: Inode, was: Option<Inode>,
                                           partial: string, final: string)
    requires PlaceRuns(run, partial, final, u.size) && Uploaded(run[0], u, was)
    ensures Safe(run[|run| - 1], u, was, partial, final)
    // The next run nothing interrupts succeeds exactly when nothing stood at the final name.
    ensures CanPlace(run[|run| - 1], partial, final, u.size) <==> was == None
  {
    if |run| > 1 {
      MoveIsCrashSafe(run[..|run| - 1], u, was, partial, final);
      assert PlaceStep(run[|run| - 2], run[|run| - 1], partial, final, u.size);
    }
  }

  /** The upload never disappears and is never doubled, and a foreign file is never overwritten. */
  lemma UploadIsAtExactlyOneName(run: seq<State>, u: Inode, was: Option<Inode>,
                                 partial: string, final: string)
    requires PlaceRuns(run, partial, final, u.size) && Uploaded(run[0], u, was)
    ensures forall i :: 0 <= i < |run| ==> (run[i].partial == Some(u) <==> run[i].final != Some(u))
    ensures forall i :: 0 <= i < |run| ==> was.Some? ==> run[i].final == was
    ensures forall i :: 0 <= i < |run| ==>
              run[i].final == Some(u) ==> run[i].record == Parsed(RecordOf(partial, final, u))
  {
    forall i | 0 <= i < |run| ensures Safe(run[i], u, was, partial, final) {
      MoveIsCrashSafe(run[..i + 1], u, was, partial, final);
    }
  }

  ghost predicate DiscardRuns(run: seq<State>, partial: string, final: string, size: nat) {
    |run| > 0 && forall i :: 0 <= i < |run| - 1 ==> DiscardStep(run[i], run[i + 1], partial, final, size)
  }

  lemma {:induction false} DiscardsKeepTheRest(run: seq<State>, u: Inode, was: Option<Inode>,
                                               partial: string, final: string)
    requires DiscardRuns(run, partial, final, u.size) && Safe(run[0], u, was, partial, final)
    requires was.Some? ==> !(was.value.dev == u.dev && was.value.ino == u.ino)
    ensures var t := run[|run| - 1];
            && t.partial == run[0].partial
            && (Safe(t, u, was, partial, final) ||
                (was == None && t.final == None &&
                 (t.record == NoRecord || t.record == Parsed(RecordOf(partial, final, u)))))
  {
    if |run| > 1 {
      DiscardsKeepTheRest(run[..|run| - 1], u, was, partial, final);
      assert DiscardStep(run[|run| - 2], run[|run| - 1], partial, final, u.size);
    }
  }

  /** A move stopped anywhere, then discards stopped anywhere, then one discard nothing interrupts: the
      upload is not at the final name, whatever else stood there still does, and the partial is untouched. */
  lemma DiscardUndoesTheMove(moves: seq<State>, discards: seq<State>, u: Inode, was: Option<Inode>,
                             partial: string, final: string)
    requires PlaceRuns(moves, partial, final, u.size) && Uploaded(moves[0], u, was)
    requires DiscardRuns(discards, partial, final, u.size) && discards[0] == moves[|moves| - 1]
    ensures var t := Discarded(discards[|discards| - 1], partial, final, u.size);
            && t.final == was
            && t.partial == moves[|moves| - 1].partial
            && (was == None ==> t.record == NoRecord)
  {
    MoveIsCrashSafe(moves, u, was, partial, final);
    DiscardsKeepTheRest(discards, u, was, partial, final);
  }
}
