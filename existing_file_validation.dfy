/**
 * The existing-file check used to skip work already done: the direct children of a base
 * directory are listed once, when the validator is built, and later queries only test
 * membership in that listing.
 */
module ExistingFileValidation {
  import opened Wrappers
  import opened LocalDisk

  /** The two exceptions the constructor raises. */
  datatype ValidatorError = DoesNotExist | NotADirectory

  /** The listing the constructor takes, or the reason it raises. */
  function Snapshot(entries: map<string, Entry>, baseDirectory: string): (r: Result<set<string>, ValidatorError>)
    ensures r == Failure(DoesNotExist) <==> baseDirectory !in entries
    ensures r == Failure(NotADirectory) <==> baseDirectory in entries && !entries[baseDirectory].Directory?
    ensures r.Success? ==> forall q :: q in r.value <==> q in entries && IsChildPath(q, baseDirectory)
  {
    if baseDirectory !in entries then Failure(DoesNotExist)
    else if !entries[baseDirectory].Directory? then Failure(NotADirectory)
    else Success(ChildrenOf(entries, baseDirectory))
  }

  /** A listing never holds the directory itself, and holds exactly one path per child. */
  lemma SnapshotExcludesBase(entries: map<string, Entry>, baseDirectory: string)
    requires Snapshot(entries, baseDirectory).Success?
    ensures baseDirectory !in Snapshot(entries, baseDirectory).value
    ensures forall q :: q in Snapshot(entries, baseDirectory).value ==> |q| > |baseDirectory| + 1 && q[..|baseDirectory|] == baseDirectory
  {
    forall q | q in Snapshot(entries, baseDirectory).value
      ensures |q| > |baseDirectory| + 1 && q[..|baseDirectory|] == baseDirectory
    {
      assert q[..|baseDirectory| + 1][..|baseDirectory|] == (baseDirectory + "/")[..|baseDirectory|];
    }
  }

  /** A listing taken before a write does not see it: writing a child after construction
      leaves the stored set as it was, while a fresh listing would include it. */
  lemma SnapshotMissesLaterWrites(entries: map<string, Entry>, baseDirectory: string, p: string, e: Entry)
    requires Snapshot(entries, baseDirectory).Success? && p !in entries && IsChildPath(p, baseDirectory)
    ensures p !in Snapshot(entries, baseDirectory).value
    ensures Snapshot(entries[p := e], baseDirectory).Success?
    ensures p in Snapshot(entries[p := e], baseDirectory).value
  {
    assert p != baseDirectory;
  }

  class LocalStorageExistingFileValidator {
    const containedFiles: set<string>

    constructor(containedFiles: set<string>)
      ensures this.containedFiles == containedFiles
    {
      this.containedFiles := containedFiles;
    }

    /** `is_existing_file`: a membership test against the listing taken at construction. */
    predicate IsExistingFile(filePath: string)
    {
      filePath in containedFiles
    }
  }

  /** `LocalStorageExistingFileValidator(base_directory)`: raises when the path is missing
      or not a directory, and otherwise keeps the paths of its direct children. */
  method NewLocalStorageExistingFileValidator(disk: Disk, baseDirectory: string)
    returns (r: Result<LocalStorageExistingFileValidator, ValidatorError>)
    ensures r.Failure? <==> Snapshot(disk.entries, baseDirectory).Failure?
    ensures r.Failure? ==> r.error == Snapshot(disk.entries, baseDirectory).error
    ensures r.Success? ==> fresh(r.value) && r.value.containedFiles == Snapshot(disk.entries, baseDirectory).value
    ensures r.Success? ==> forall p :: r.value.IsExistingFile(p) <==> p in disk.entries && IsChildPath(p, baseDirectory)
  {
    if !disk.Exists(baseDirectory) {
      return Failure(DoesNotExist);
    }
    if !disk.IsDirectory(baseDirectory) {
      return Failure(NotADirectory);
    }
    var containedFiles := ChildrenOf(disk.entries, baseDirectory);
    var validator := new LocalStorageExistingFileValidator(containedFiles);
    r := Success(validator);
  }

  /** A validator built on a directory answers `is_existing_file` with true exactly for the
      direct children present at construction: a missing path, the directory itself and a
      grandchild are all answered false. */
  lemma IsExistingFileOfSnapshot(v: LocalStorageExistingFileValidator, entries: map<string, Entry>,
                                 baseDirectory: string, p: string)
    requires Snapshot(entries, baseDirectory).Success?
    requires v.containedFiles == Snapshot(entries, baseDirectory).value
    ensures v.IsExistingFile(p) <==> p in entries && IsChildPath(p, baseDirectory)
    ensures !v.IsExistingFile(baseDirectory)
  {
    SnapshotExcludesBase(entries, baseDirectory);
  }
}
