/** A record kept in two files (native/src/atomic_write.cpp): the old primary becomes the backup, then the new record
    replaces the primary by one rename. A crash leaves one of the stages in between, and either rename may fail. */
module FileStore {

  /** A file that is not there, that does not pass its checksum, or that holds a record. */
  datatype File<R> = Missing | Garbage | Valid(record: R)

  datatype Files<R> = Files(primary: File<R>, backup: File<R>)

  /** How one write fares: a rotation that fails is passed over, a new primary that cannot be put in place fails it. */
  datatype Attempt = Attempt(renamed: bool, wrote: bool)

  function Rotated<R>(f: Files<R>): Files<R> {
    if f.primary.Valid? then Files(Missing, f.primary) else f
  }

  function After<R>(f: Files<R>, r: R, a: Attempt): Files<R> {
    var g := if a.renamed then Rotated(f) else f;
    if a.wrote then g.(primary := Valid(r)) else g
  }

  /** writeWithBackupRotation when nothing fails. */
  function Stored<R>(f: Files<R>, r: R): Files<R> {
    Rotated(f).(primary := Valid(r))
  }

  /** What a crash during the write can leave. */
  ghost predicate Stage<R>(f: Files<R>, r: R, g: Files<R>) {
    g == f || g == Rotated(f) || g == f.(primary := Valid(r)) || g == Stored(f, r)
  }

  /** The stages of a write are what its attempts leave, and nothing else. */
  lemma StagesAreAttempts<R>(f: Files<R>, r: R, g: Files<R>)
    ensures Stage(f, r, g) <==> exists a: Attempt :: g == After(f, r, a)
  {
    var attempts := [Attempt(false, false), Attempt(true, false), Attempt(false, true), Attempt(true, true)];
    assert After(f, r, attempts[0]) == f && After(f, r, attempts[1]) == Rotated(f);
    assert After(f, r, attempts[2]) == f.(primary := Valid(r)) && After(f, r, attempts[3]) == Stored(f, r);
  }

  /** File by file: a rotation moves a good primary, and only that, so a write that fails behind one leaves none; the
      record is in the primary exactly if its own write worked. */
  lemma AttemptMeans<R>(f: Files<R>, r: R, a: Attempt)
    ensures var g := After(f, r, a); var moved := a.renamed && f.primary.Valid?;
            && (a.wrote ==> g.primary == Valid(r))
            && (!a.wrote && moved ==> g.primary == Missing)
            && (!a.wrote && !moved ==> g.primary == f.primary)
            && (moved ==> g.backup == f.primary) && (!moved ==> g.backup == f.backup)
  {
  }

  class TwoFiles<R> {
    var primary: File<R>
    var backup: File<R>

    ghost function View(): Files<R>
      reads this
    {
      Files(primary, backup)
    }

    constructor (primary: File<R>, backup: File<R>)
      ensures View() == Files(primary, backup)
    {
      this.primary, this.backup := primary, backup;
    }

    /** rename(primary, backup). */
    method Rotate()
      requires primary.Valid?
      modifies this
      ensures View() == Rotated(old(View()))
    {
      backup := primary;
      primary := Missing;
    }

    /** writeFileAtomically: a temporary file, flushed, and then renamed over the primary. */
    method Replace(r: R, wrote: bool) returns (ok: bool)
      modifies this
      ensures ok == wrote
      ensures View() == if ok then old(View()).(primary := Valid(r)) else old(View())
    {
      ok := wrote;
      if ok {
        primary := Valid(r);
      }
    }

    method WriteWithBackupRotation(r: R, a: Attempt) returns (ok: bool)
      modifies this
      ensures ok == a.wrote
      ensures View() == After(old(View()), r, a)
    {
      if primary.Valid? && a.renamed {
        Rotate();
      }
      ok := Replace(r, a.wrote);
    }
  }
}
