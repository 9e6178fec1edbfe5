/** Deleting the files nobody needs (DBImpl::DeleteObsoleteFiles, db/db_impl.cc). */
module ObsoleteFiles {
  import opened Lifecycle

  datatype FileType = LogFile | DescriptorFile | TableFile | TempFile | CurrentFile | DBLockFile | InfoLogFile

  /** A name in the database's directory, as ParseFileName sees it. */
  datatype Name = Database(number: nat, kind: FileType) | Foreign(name: string)

  /** What the version set knows: the tables of every version still in use, and the numbers in its manifest. */
  datatype VersionSet = VersionSet(live: set<nat>, logNumber: nat, prevLogNumber: nat, manifestFileNumber: nat)

  class DBImpl {
    var bgError: bool
    var pendingOutputs: set<nat>
    var versions: VersionSet
    var disk: set<Name>

    constructor (versions: VersionSet, disk: set<Name>)
      ensures this.versions == versions && this.disk == disk && !bgError && pendingOutputs == {}
    {
      bgError, pendingOutputs, this.versions, this.disk := false, {}, versions, disk;
    }

    /** This object's fields are those of a state of the database whose current version is in use. */
    ghost predicate Shows(db: Db)
      reads this
    {
      && db.bgError == bgError && db.pending == pendingOutputs
      && db.current.tables <= versions.live && db.current.logNumber == versions.logNumber
      && db.manifest == versions.manifestFileNumber
    }

    /**
     * The names come from GetChildren, which may miss some or return stale ones. What is in use stays: the manifest
     * and later ones, the logs from the log number on and the previous log, tables and temporary files that a version
     * holds or that are being written, and everything of another kind. Everything else that was listed goes.
     */
    method DeleteObsoleteFiles(filenames: seq<Name>)
      modifies this`disk
      ensures forall n: nat :: n >= versions.manifestFileNumber && Database(n, DescriptorFile) in old(disk) ==> Database(n, DescriptorFile) in disk
      ensures forall n: nat :: n >= versions.logNumber && Database(n, LogFile) in old(disk) ==> Database(n, LogFile) in disk
      ensures Database(versions.prevLogNumber, LogFile) in old(disk) ==> Database(versions.prevLogNumber, LogFile) in disk
      ensures forall n: nat :: (n in versions.live || n in pendingOutputs) && Database(n, TableFile) in old(disk) ==> Database(n, TableFile) in disk
      ensures forall n: nat :: (n in versions.live || n in pendingOutputs) && Database(n, TempFile) in old(disk) ==> Database(n, TempFile) in disk
      ensures forall f :: f in old(disk) && (f.Foreign? || f.kind in {CurrentFile, DBLockFile, InfoLogFile}) ==> f in disk
      ensures !bgError ==> forall n: nat :: Database(n, DescriptorFile) in filenames && n < versions.manifestFileNumber ==> Database(n, DescriptorFile) !in disk
      ensures !bgError ==> forall n: nat :: Database(n, LogFile) in filenames && n < versions.logNumber && n != versions.prevLogNumber ==>
                Database(n, LogFile) !in disk
      ensures !bgError ==> forall n: nat :: Database(n, TableFile) in filenames && n !in versions.live && n !in pendingOutputs ==>
                Database(n, TableFile) !in disk
      ensures !bgError ==> forall n: nat :: Database(n, TempFile) in filenames && n !in versions.live && n !in pendingOutputs ==>
                Database(n, TempFile) !in disk
      ensures disk <= old(disk) && forall f :: f in old(disk) && f !in filenames ==> f in disk
      ensures bgError ==> disk == old(disk)
      ensures !bgError ==> forall f :: f in old(disk) && f in filenames ==> (f in disk <==> Needed(f, versions, pendingOutputs))
      ensures forall db :: Shows(db) ==> Obsolete(db, Deleted(old(disk), disk))
    {
      if bgError {
        NothingDeleted(disk);
        return;
      }
      var live := pendingOutputs + versions.live;
      for i := 0 to |filenames|
        invariant forall f :: f in disk <==> f in old(disk) && (f in filenames[..i] ==> Needed(f, versions, pendingOutputs))
      {
        if filenames[i].Database? {
          var number := filenames[i].number;
          var keep := true;
          match filenames[i].kind {
            case LogFile => { keep := number >= versions.logNumber || number == versions.prevLogNumber; }
            case DescriptorFile => { keep := number >= versions.manifestFileNumber; }
            case TableFile => { keep := number in live; }
            case TempFile => { keep := number in live; }
            case CurrentFile => { keep := true; }
            case DBLockFile => { keep := true; }
            case InfoLogFile => { keep := true; }
          }
          if !keep {
            disk := disk - {filenames[i]};
          }
        }
      }
      assert filenames[..|filenames|] == filenames;
    }
  }

  /** A table is needed by a version in use, or while it is being written; a log from the manifest's number on. */
  predicate Needed(f: Name, v: VersionSet, pending: set<nat>) {
    f.Database? ==>
      && (f.kind.TableFile? || f.kind.TempFile? ==> f.number in v.live || f.number in pending)
      && (f.kind.LogFile? ==> v.logNumber <= f.number || f.number == v.prevLogNumber)
      && (f.kind.DescriptorFile? ==> v.manifestFileNumber <= f.number)
  }

  /** The tables, logs and manifests that are gone. */
  function Deleted(before: set<Name>, after: set<Name>): Garbage {
    var gone := before - after;
    Garbage(set f | f in gone && f.Database? && f.kind.TableFile? :: f.number,
            set f | f in gone && f.Database? && f.kind.LogFile? :: f.number,
            set f | f in gone && f.Database? && f.kind.DescriptorFile? :: f.number)
  }

  lemma NothingDeleted(disk: set<Name>)
    ensures Deleted(disk, disk) == Garbage({}, {}, {})
  {
  }
}
