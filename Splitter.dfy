/** create_split_dirs (dirsplitter.py:78-100) and split_directory (dirsplitter.py:103-145):
    make the output directory and its numbered sub-directories, then move or copy every
    regular file of the input directory, in sorted order, into the sub-directory its position
    is assigned to, logging a progress record at every hundredth sub-directory. */
module Splitter {
  import opened Decimal
  import opened Paths
  import opened ShardNaming
  import opened ShardAssignment
  import opened FileListing
  import opened Fs
  import opened Transfers

  /** n_k_print: a progress record is due when the sub-directory index is a multiple of this. */
  const ReportInterval := 100

  /** Path of the k-th of n split directories under parent. */
  function ShardPath(parent: Path, k: nat, n: nat): Path
    requires 1 <= k <= n
  {
    Join(parent, GetIthSubDirName(k, n))
  }

  /** A split directory is a direct child of parent named by its index; distinct indices give
      distinct paths. */
  lemma ShardPathInjective(parent: Path, k1: nat, k2: nat, n: nat)
    requires 1 <= k1 <= n && 1 <= k2 <= n
    ensures Basename(ShardPath(parent, k1, n)) == GetIthSubDirName(k1, n)
    ensures IsChildOf(ShardPath(parent, k1, n), parent)
    ensures ShardPath(parent, k1, n) == ShardPath(parent, k2, n) <==> k1 == k2
  {
    SubDirNameIsComponent(k1, n);
    SubDirNameIsComponent(k2, n);
    JoinIsChild(parent, GetIthSubDirName(k1, n));
    BasenameOfJoin(parent, GetIthSubDirName(k1, n));
    JoinInjective(parent, GetIthSubDirName(k1, n), GetIthSubDirName(k2, n));
    SubDirNameInjective(k1, k2, n);
  }

  /** Paths of the first m of the n split directories. */
  function ShardPathsUpTo(parent: Path, n: int, m: int): set<Path>
  {
    set k: nat | 1 <= k <= m && k <= n :: ShardPath(parent, k, n)
  }

  function ShardPaths(parent: Path, n: int): set<Path>
  {
    ShardPathsUpTo(parent, n, n)
  }

  lemma {:induction false} ShardPathsUpToCount(parent: Path, n: nat, m: nat)
    requires m <= n
    ensures |ShardPathsUpTo(parent, n, m)| == m
  {
    if m > 0 {
      ShardPathsUpToCount(parent, n, m - 1);
      var p := ShardPath(parent, m, n);
      ShardPathsUpToStep(parent, n, m);
      if p in ShardPathsUpTo(parent, n, m - 1) {
        var k: nat :| 1 <= k <= m - 1 && ShardPath(parent, k, n) == p;
        ShardPathInjective(parent, k, m, n);
      }
    }
  }

  lemma ShardPathsUpToStep(parent: Path, n: int, m: nat)
    requires 1 <= m <= n
    ensures ShardPathsUpTo(parent, n, m) == ShardPathsUpTo(parent, n, m - 1) + {ShardPath(parent, m, n)}
  {
    var m': nat := m;
    assert ShardPath(parent, m', n) in ShardPathsUpTo(parent, n, m);
  }

  /** The n split directories have n distinct paths. */
  lemma ShardPathsCount(parent: Path, n: nat)
    ensures |ShardPaths(parent, n)| == n
  {
    ShardPathsUpToCount(parent, n, n);
  }

  /** The directory set once os.makedirs(parent) and the first m os.mkdir calls of
      create_split_dirs(parent, n) have succeeded: parent and those split directories are
      added, except a path already taken by a regular file (its FileExistsError is swallowed
      as well). */
  function CreatedUpTo(dirs: set<Path>, fileKeys: set<Path>, parent: Path, n: int, m: int): set<Path>
  {
    dirs + ({parent} - fileKeys) + (ShardPathsUpTo(parent, n, m) - fileKeys)
  }

  /** The directory set after create_split_dirs(parent, n) succeeds. */
  function CreatedDirs(dirs: set<Path>, fileKeys: set<Path>, parent: Path, n: int): set<Path>
  {
    CreatedUpTo(dirs, fileKeys, parent, n, n)
  }

  /** When no regular file is in the way, parent and exactly n split directories exist
      afterwards, and nothing that existed before is gone. */
  lemma CreatedDirsContents(dirs: set<Path>, fileKeys: set<Path>, parent: Path, n: nat)
    requires parent !in fileKeys && ShardPaths(parent, n) !! fileKeys
    ensures var after := CreatedDirs(dirs, fileKeys, parent, n);
      dirs <= after && parent in after &&
      (forall k :: 1 <= k <= n ==> ShardPath(parent, k, n) in after) &&
      |ShardPaths(parent, n)| == n
  {
    ShardPathsCount(parent, n);
    forall k | 1 <= k <= n ensures ShardPath(parent, k, n) in ShardPaths(parent, n) {
      var k': nat := k;
      assert ShardPath(parent, k', n) in ShardPathsUpTo(parent, n, n);
    }
  }

  /** Creating the directories a second time changes nothing. */
  lemma CreatedDirsIdempotent(dirs: set<Path>, fileKeys: set<Path>, parent: Path, n: int)
    ensures CreatedDirs(CreatedDirs(dirs, fileKeys, parent, n), fileKeys, parent, n)
            == CreatedDirs(dirs, fileKeys, parent, n)
  {
  }

  /** Making the i-th split directory extends the first i - 1 by one, unless a regular file
      holds its path. */
  lemma CreatedDirsStep(dirs: set<Path>, fileKeys: set<Path>, parent: Path, n: int, i: nat)
    requires 1 <= i <= n
    ensures CreatedUpTo(dirs, fileKeys, parent, n, i)
            == CreatedUpTo(dirs, fileKeys, parent, n, i - 1) + ({ShardPath(parent, i, n)} - fileKeys)
  {
    ShardPathsUpToStep(parent, n, i);
  }

  /** create_split_dirs(parent, n) fails exactly when os.makedirs(parent) raises
      FileNotFoundError (parent is empty) or NotADirectoryError (an ancestor of parent is a
      regular file), or parent itself is a regular file and the first os.mkdir under it
      raises NotADirectoryError. */
  predicate CreationFails(fileKeys: set<Path>, parent: Path, n: int) {
    parent == [] || UnderFile(fileKeys, parent) || (parent in fileKeys && n >= 1)
  }

  /** The error create_split_dirs(parent, n) fails with when CreationFails holds. */
  function CreationError(parent: Path): FsError {
    if parent == [] then NotFound(parent) else NotADirectory(parent)
  }

  /** create_split_dirs(parent, n). os.makedirs(parent) and each os.mkdir swallow
      FileExistsError; any other error from either propagates. */
  method CreateSplitDirs(fs: FileSystem, parent: Path, n: int) returns (r: Status)
    requires fs.Valid()
    modifies fs
    ensures fs.Valid() && fs.files == old(fs.files)
    ensures r.Failure? <==> CreationFails(fs.files.Keys, parent, n)
    ensures r.Failure? ==> r.error == CreationError(parent) && fs.dirs == old(fs.dirs)
    ensures r.Success? ==> fs.dirs == CreatedDirs(old(fs.dirs), fs.files.Keys, parent, n)
  {
    ghost var dirs0, keys0 := fs.dirs, fs.files.Keys;
    var madeParent := fs.MakeDirs(parent);
    if madeParent.Failure? && !madeParent.error.AlreadyExists? {
      return madeParent;
    }
    var i := 1;
    while i <= n
      invariant 1 <= i && (n >= 1 ==> i <= n + 1)
      invariant fs.Valid() && fs.files == old(fs.files)
      invariant parent in keys0 ==> i == 1 && fs.dirs == dirs0
      invariant parent !in keys0 ==> fs.dirs == CreatedUpTo(dirs0, keys0, parent, n, i - 1)
    {
      var made := MakeSplitDir(fs, parent, n, i, dirs0, keys0);
      if made.Failure? {
        return made;
      }
      i := i + 1;
    }
    if n < 1 {
      assert ShardPathsUpTo(parent, n, 0) == {} == ShardPathsUpTo(parent, n, n);
    }
    return Success;
  }

  /** One pass of create_split_dirs' loop (dirsplitter.py:94-100): os.mkdir of split
      directory i, with FileExistsError swallowed. */
  method MakeSplitDir(fs: FileSystem, parent: Path, n: int, i: nat, ghost dirs0: set<Path>, ghost keys0: set<Path>)
    returns (r: Status)
    requires fs.Valid() && 1 <= i <= n && keys0 == fs.files.Keys
    requires parent in keys0 ==> fs.dirs == dirs0
    requires parent !in keys0 ==> fs.dirs == CreatedUpTo(dirs0, keys0, parent, n, i - 1)
    modifies fs
    ensures fs.Valid() && fs.files == old(fs.files)
    ensures r.Failure? <==> parent in keys0
    ensures r.Failure? ==> r == Failure(NotADirectory(parent)) && fs.dirs == old(fs.dirs)
    ensures r.Success? ==> fs.dirs == CreatedUpTo(dirs0, keys0, parent, n, i)
  {
    var name := GetIthSubDirName(i, n);
    var made := fs.Mkdir(parent, name);
    if made.Failure? && !made.error.AlreadyExists? {
      return made;
    }
    CreatedDirsStep(dirs0, keys0, parent, n, i);
    return Success;
  }

  /** The sub-directory the 1-based position p (of numFiles) goes to, and its path. */
  function Destination(outDir: Path, n: nat, numFiles: nat, p: nat, src: Path): Path
    requires 1 <= n && 1 <= p
  {
    Join(ShardPath(outDir, GetFileSplitDirIndex(p, n, numFiles), n), Basename(src))
  }

  /** new_f_name for every file of the list, in list order. */
  function Destinations(outDir: Path, n: nat, fileList: seq<Path>): seq<Path>
    requires n >= 1
  {
    seq(|fileList|, i requires 0 <= i < |fileList| =>
      Destination(outDir, n, |fileList|, i + 1, fileList[i]))
  }

  /** The destination of the file at 0-based index i: its base name joined onto the path of
      its assigned split directory. */
  lemma DestinationOf(outDir: Path, n: nat, fileList: seq<Path>, i: nat)
    requires n >= 1 && i < |fileList|
    ensures |Destinations(outDir, n, fileList)| == |fileList|
    ensures Destinations(outDir, n, fileList)[i] ==
      Join(Join(outDir, GetIthSubDirName(GetFileSplitDirIndex(i + 1, n, |fileList|), n)), Basename(fileList[i]))
  {
    var k := GetFileSplitDirIndex(i + 1, n, |fileList|);
    assert Destinations(outDir, n, fileList)[i] == Destination(outDir, n, |fileList|, i + 1, fileList[i]);
    assert Destination(outDir, n, |fileList|, i + 1, fileList[i]) == Join(ShardPath(outDir, k, n), Basename(fileList[i]));
  }

  /** The list of regular files directly in dir, with no duplicates, in ascending order. */
  ghost predicate IsFileListOf(fileList: seq<Path>, fileKeys: set<Path>, dir: Path) {
    && Sorted(fileList)
    && Distinct(fileList)
    && forall p :: p in fileList <==> p in fileKeys && IsChildOf(p, dir)
  }

  /** Every destination keeps its source's base name; no destination is another file's source or another file's destination. */
  lemma DestinationsSeparate(inDir: Path, outDir: Path, n: nat, fileList: seq<Path>)
    requires n >= 1 && Distinct(fileList)
    requires forall p :: p in fileList ==> IsChildOf(p, inDir)
    ensures var dsts := Destinations(outDir, n, fileList);
      |dsts| == |fileList| &&
      (forall i :: 0 <= i < |fileList| ==> Basename(dsts[i]) == Basename(fileList[i])) &&
      (forall i, j :: 0 <= i < |fileList| && 0 <= j < |fileList| && i != j ==>
         dsts[i] != fileList[j] && dsts[i] != dsts[j])
  {
    var dsts := Destinations(outDir, n, fileList);
    forall i | 0 <= i < |fileList|
      ensures dsts[i] == Destination(outDir, n, |fileList|, i + 1, fileList[i])
    {
      DestinationOf(outDir, n, fileList, i);
    }
    forall i | 0 <= i < |fileList| ensures Basename(dsts[i]) == Basename(fileList[i]) {
      assert fileList[i] in fileList;
      BasenameOfJoin(ShardPath(outDir, GetFileSplitDirIndex(i + 1, n, |fileList|), n), Basename(fileList[i]));
    }
    forall i, j | 0 <= i < |fileList| && 0 <= j < |fileList| && i != j
      ensures dsts[i] != fileList[j] && dsts[i] != dsts[j]
    {
      assert fileList[i] in fileList && fileList[j] in fileList;
    }
  }

  /** One progress record: 'Copying' or 'Moving' and the sub-directory name. */
  datatype ProgressRecord = ProgressRecord(verb: string, subDirName: string)

  /** The verb of the progress records: 'Copying' for command "c", 'Moving' for any other. */
  function Verb(command: string): string {
    if command == "c" then "Copying" else "Moving"
  }

  /** The record for position p is due when its sub-directory differs from the previous
      file's and is a multiple of ReportInterval. Before the first file the previous index is
      0, which differs from every sub-directory's. */
  predicate Reported(p: nat, n: nat, numFiles: nat)
    requires 1 <= p && 1 <= n
  {
    && (p == 1 || GetFileSplitDirIndex(p - 1, n, numFiles) != GetFileSplitDirIndex(p, n, numFiles))
    && GetFileSplitDirIndex(p, n, numFiles) % ReportInterval == 0
  }

  /** The progress records of the first m files. */
  function ProgressLog(command: string, n: nat, numFiles: nat, m: nat): seq<ProgressRecord>
    requires 1 <= n
  {
    if m == 0 then []
    else
      ProgressLog(command, n, numFiles, m - 1) +
      if Reported(m, n, numFiles)
      then [ProgressRecord(Verb(command), GetIthSubDirName(GetFileSplitDirIndex(m, n, numFiles), n))]
      else []
  }

  /** What the loop of split_directory appends for the file at 0-based index i, given the
      previous file's directory index last (0 before the first file). */
  lemma ProgressLogStep(command: string, n: nat, numFiles: nat, i: nat, last: int)
    requires 1 <= n
    requires i == 0 ==> last == 0
    requires i > 0 ==> last == GetFileSplitDirIndex(i, n, numFiles)
    ensures Reported(i + 1, n, numFiles) <==>
      last != GetFileSplitDirIndex(i + 1, n, numFiles) && GetFileSplitDirIndex(i + 1, n, numFiles) % ReportInterval == 0
    ensures Reported(i + 1, n, numFiles) ==>
      ProgressLog(command, n, numFiles, i + 1) == ProgressLog(command, n, numFiles, i) +
        [ProgressRecord(Verb(command), GetIthSubDirName(GetFileSplitDirIndex(i + 1, n, numFiles), n))]
    ensures !Reported(i + 1, n, numFiles) ==>
      ProgressLog(command, n, numFiles, i + 1) == ProgressLog(command, n, numFiles, i)
  {
  }

  /** The log holds at most one record per file; every record carries the command's verb,
      "Copying" exactly for command "c" and "Moving" otherwise, and the name of a split
      directory whose index is a positive multiple of ReportInterval. */
  lemma {:induction false} ProgressLogRecords(command: string, n: nat, numFiles: nat, m: nat)
    requires 1 <= n
    ensures var log := ProgressLog(command, n, numFiles, m);
      |log| <= m &&
      forall j :: 0 <= j < |log| ==>
        (log[j].verb == "Copying" <==> command == "c") &&
        (log[j].verb == "Moving" <==> command != "c") &&
        exists k :: 1 <= k <= n && k % ReportInterval == 0 && log[j].subDirName == GetIthSubDirName(k, n)
  {
    if m > 0 {
      ProgressLogRecords(command, n, numFiles, m - 1);
      var log, prev := ProgressLog(command, n, numFiles, m), ProgressLog(command, n, numFiles, m - 1);
      assert log[..|prev|] == prev;
      forall j | |prev| <= j < |log|
        ensures exists k :: 1 <= k <= n && k % ReportInterval == 0 && log[j].subDirName == GetIthSubDirName(k, n)
      {
        var k := GetFileSplitDirIndex(m, n, numFiles);
        assert log[j].subDirName == GetIthSubDirName(k, n);
      }
    }
  }

  /** A position that opens a new sub-directory, as every reported one does, goes to a
      higher sub-directory than every earlier position; so no sub-directory is reported twice. */
  lemma ReportedOnce(p1: nat, p2: nat, n: nat, numFiles: nat)
    requires 1 <= p1 < p2 && 1 <= n
    requires GetFileSplitDirIndex(p2 - 1, n, numFiles) != GetFileSplitDirIndex(p2, n, numFiles)
    ensures GetFileSplitDirIndex(p1, n, numFiles) < GetFileSplitDirIndex(p2, n, numFiles)
  {
    AssignmentMonotone(p1, p2 - 1, n, numFiles);
    AssignmentMonotone(p2 - 1, p2, n, numFiles);
  }

  /** Only a directory that receives a file can be reported: below n that needs
      numFiles >= n, and the last directory needs one file. */
  lemma ReportedOnlyIfFilled(p: nat, n: nat, numFiles: nat)
    requires 1 <= p <= numFiles && 1 <= n && Reported(p, n, numFiles)
    ensures var k := GetFileSplitDirIndex(p, n, numFiles);
      k % ReportInterval == 0 && (numFiles >= n || k == n)
  {
    var q := PerDir(n, numFiles);
    SplitDirIndexBlock(p, n, numFiles);
    if GetFileSplitDirIndex(p, n, numFiles) < n {
      assert p <= q * n;
      MulLess(q, 1, n);
    }
  }

  /** The first position of directory k, when k receives any file at all: (k-1)q + 1, where
      the previous position belongs to directory k - 1. */
  lemma FirstOfDirectory(k: nat, n: nat, numFiles: nat) returns (p: nat)
    requires 1 <= k <= n && (numFiles >= n || (k == n && numFiles >= 1))
    ensures 1 <= p <= numFiles && GetFileSplitDirIndex(p, n, numFiles) == k
    ensures p == 1 || GetFileSplitDirIndex(p - 1, n, numFiles) == k - 1
  {
    var q := PerDir(n, numFiles);
    p := (k - 1) * q + 1;
    FirstInBlock(k, n, numFiles);
    if p > 1 {
      LastInBlock(k - 1, n, numFiles);
    }
  }

  /** Position (k-1)q + 1 exists and goes to directory k. */
  lemma FirstInBlock(k: nat, n: nat, numFiles: nat)
    requires 1 <= k <= n && (numFiles >= n || (k == n && numFiles >= 1))
    ensures var p := (k - 1) * PerDir(n, numFiles) + 1;
      p <= numFiles && GetFileSplitDirIndex(p, n, numFiles) == k
  {
    var q := PerDir(n, numFiles);
    PerDirBounds(n, numFiles);
    MulMonotone(0, k - 1, q);
    var p := (k - 1) * q + 1;
    assert 1 <= p && p - 1 + q == k * q;
    if k < n {
      MulLess(1, q + 1, n);
      MulMonotone(k, n, q);
    } else if q == 0 {
      assert p == 1;
    }
    AssignedToBlock(p, k, n, numFiles);
  }

  /** Position kq goes to directory k when k < n and it is a position at all. */
  lemma LastInBlock(k: nat, n: nat, numFiles: nat)
    requires 1 <= k < n && k * PerDir(n, numFiles) >= 1
    ensures GetFileSplitDirIndex(k * PerDir(n, numFiles), n, numFiles) == k
  {
    var q := PerDir(n, numFiles);
    assert (k - 1) * q + q == k * q;
    MulLess(0, k, q);
    AssignedToBlock(k * q, k, n, numFiles);
  }

  /** Sub-directory k is reported exactly when it is a multiple of ReportInterval and receives
      a file: every directory does when numFiles >= n, only the last one when
      1 <= numFiles < n. */
  lemma ReportedDirectories(k: int, n: nat, numFiles: nat)
    requires 1 <= n
    ensures (exists p :: 1 <= p <= numFiles && Reported(p, n, numFiles) && GetFileSplitDirIndex(p, n, numFiles) == k)
        <==> 1 <= k <= n && k % ReportInterval == 0 && (numFiles >= n || (k == n && numFiles >= 1))
  {
    if exists p :: 1 <= p <= numFiles && Reported(p, n, numFiles) && GetFileSplitDirIndex(p, n, numFiles) == k {
      var p :| 1 <= p <= numFiles && Reported(p, n, numFiles) && GetFileSplitDirIndex(p, n, numFiles) == k;
      ReportedOnlyIfFilled(p, n, numFiles);
    }
    if 1 <= k <= n && k % ReportInterval == 0 && (numFiles >= n || (k == n && numFiles >= 1)) {
      var p := FirstOfDirectory(k, n, numFiles);
      assert Reported(p, n, numFiles);
    }
  }

  /** get_file_list(dir) together with the os.listdir and os.path.isfile calls it makes: the
      sorted paths of the regular files directly in dir. */
  method ListFiles(fs: FileSystem, dir: Path) returns (r: Listing)
    requires fs.Valid()
    ensures dir !in fs.dirs ==> r == ListingFailed(MissingPathError(fs.files.Keys, dir))
    ensures dir in fs.dirs ==> r.Listed? && IsFileListOf(r.names, fs.files.Keys, dir)
  {
    var listed := fs.ListDir(dir);
    if listed.ListingFailed? {
      return listed;
    }
    var list := GetFileList(dir, listed.names, fs.files.Keys);
    FileListWellFormed(dir, listed.names, fs.files.Keys);
    forall p | p in fs.files.Keys && IsChildOf(p, dir) ensures p in list {
      assert Basename(p) in listed.names;
    }
    return Listed(list);
  }

  /** split_directory(inDir, outDir, command, n). The file list is taken first (a missing or
      non-directory inDir stops the run before anything changes); the rest is SplitFileList. */
  method SplitDirectory(fs: FileSystem, inDir: Path, outDir: Path, command: string, n: int)
    returns (r: Status, ghost fileList: seq<Path>, ghost transferred: nat, ghost progress: seq<ProgressRecord>)
    requires fs.Valid()
    modifies fs
    ensures fs.Valid()
    ensures old(inDir !in fs.dirs) ==>
      r == Failure(MissingPathError(old(fs.files.Keys), inDir)) &&
      fs.dirs == old(fs.dirs) && fs.files == old(fs.files) && transferred == 0 && progress == []
    ensures old(inDir in fs.dirs) ==>
      IsFileListOf(fileList, old(fs.files.Keys), inDir) &&
      SplitOutcome(old(fs.dirs), old(fs.files), fs.dirs, fs.files, fileList, outDir, command, n, r, transferred, progress)
  {
    var listed := ListFiles(fs, inDir);
    if listed.ListingFailed? {
      return Failure(listed.error), [], 0, [];
    }
    var list := listed.names;
    fileList := list;
    r, transferred, progress := SplitFileList(fs, inDir, list, outDir, command, n);
  }

  /** What split_directory does once the file list of inDir is taken: its outcome, the new
      directory set and file map, and the progress log, from the directory set and file map
      it started with. */
  ghost predicate SplitOutcome(dirs0: set<Path>, files0: map<Path, Content>, dirs: set<Path>, files: map<Path, Content>,
                               fileList: seq<Path>, outDir: Path, command: string, n: int,
                               r: Status, transferred: nat, progress: seq<ProgressRecord>)
  {
    && transferred <= |fileList|
    && (CreationFails(files0.Keys, outDir, n) ==>
          r == Failure(CreationError(outDir)) && dirs == dirs0 && files == files0 &&
          transferred == 0 && progress == [])
    && (!CreationFails(files0.Keys, outDir, n) ==> dirs == CreatedDirs(dirs0, files0.Keys, outDir, n))
    && (!CreationFails(files0.Keys, outDir, n) && n < 1 ==>
          files == files0 && transferred == 0 && progress == [] &&
          (r.Success? <==> fileList == []) && (r.Failure? ==> r.error == BadSplitCount(n)))
    && (!CreationFails(files0.Keys, outDir, n) && n >= 1 ==>
          && files == Replay(files0, command == "m", fileList, Destinations(outDir, n, fileList), transferred)
          && Transferred(files0, files, fileList, Destinations(outDir, n, fileList), command == "m", transferred)
          && progress == ProgressLog(command, n, |fileList|, transferred)
          && (r.Success? <==> transferred == |fileList|)
          && (r.Failure? ==> !CanTransferIn(dirs, files, command == "m", fileList[transferred],
                ShardPath(outDir, GetFileSplitDirIndex(transferred + 1, n, |fileList|), n),
                Basename(fileList[transferred]))))
  }

  /** dirsplitter.py:121-145 for the file list of inDir: the directories are created, then the
      files are moved (command "m") or copied (anything else) in list order, and the first
      transfer that fails stops the run with the earlier ones done. With n < 1 the first file
      already fails: get_file_split_dir_index divides by zero when n == 0, and
      get_ith_sub_dir_name takes the logarithm of a negative number when n < 0. */
  method SplitFileList(fs: FileSystem, ghost inDir: Path, list: seq<Path>, outDir: Path, command: string, n: int)
    returns (r: Status, ghost transferred: nat, ghost progress: seq<ProgressRecord>)
    requires fs.Valid() && IsFileListOf(list, fs.files.Keys, inDir)
    modifies fs
    ensures fs.Valid()
    ensures SplitOutcome(old(fs.dirs), old(fs.files), fs.dirs, fs.files, list, outDir, command, n, r, transferred, progress)
  {
    transferred, progress := 0, [];
    var created := CreateSplitDirs(fs, outDir, n);
    if created.Failure? {
      return created, 0, [];
    }
    if n < 1 {
      return if list == [] then Success else Failure(BadSplitCount(n)), 0, [];
    }

    DestinationsSeparate(inDir, outDir, n, list);
    ghost var dsts := Destinations(outDir, n, list);
    ghost var files0 := fs.files;
    r, transferred, progress := TransferFiles(fs, list, outDir, command, n, dsts);
    ReplayTransferred(files0, command == "m", list, dsts, transferred);
  }

  /** The loop of split_directory (dirsplitter.py:125-145): each file of the list, in order, is
      moved (command "m") or copied to its destination, and a progress record is logged when
      its sub-directory differs from the previous file's and is a multiple of
      ReportInterval. The first transfer that fails stops the loop. */
  method TransferFiles(fs: FileSystem, list: seq<Path>, outDir: Path, command: string, n: nat, ghost dsts: seq<Path>)
    returns (r: Status, ghost transferred: nat, ghost progress: seq<ProgressRecord>)
    requires fs.Valid() && n >= 1
    requires dsts == Destinations(outDir, n, list)
    modifies fs
    ensures fs.Valid() && fs.dirs == old(fs.dirs)
    ensures transferred <= |list|
    ensures fs.files == Replay(old(fs.files), command == "m", list, dsts, transferred)
    ensures r.Success? <==> transferred == |list|
    ensures r.Failure? ==> !fs.CanTransfer(command == "m", list[transferred],
      ShardPath(outDir, GetFileSplitDirIndex(transferred + 1, n, |list|), n), Basename(list[transferred]))
    ensures progress == ProgressLog(command, n, |list|, transferred)
  {
    var numFiles := |list|;
    transferred, progress := 0, [];
    ghost var files0 := fs.files;

    var lastUpdateDirIndex := 0;
    var i := 0;
    while i < numFiles
      invariant 0 <= i <= numFiles && transferred == i
      invariant fs.Valid() && fs.dirs == old(fs.dirs)
      invariant fs.files == Replay(files0, command == "m", list, dsts, i)
      invariant i == 0 ==> lastUpdateDirIndex == 0
      invariant i > 0 ==> lastUpdateDirIndex == GetFileSplitDirIndex(i, n, numFiles)
      invariant progress == ProgressLog(command, n, numFiles, i)
    {
      var moved, currentUpdateDirIndex, progress' :=
        SplitFile(fs, list, i, outDir, command, n, lastUpdateDirIndex, files0, dsts, progress);
      if moved.Failure? {
        return moved, transferred, progress;
      }
      lastUpdateDirIndex, progress := currentUpdateDirIndex, progress';
      i := i + 1;
      transferred := i;
    }
    return Success, transferred, progress;
  }

  /** One pass of the loop body for the file at 0-based index i: new_f_name is the file's base
      name joined onto the path of its assigned split directory; the file is moved or copied
      there, and a progress record is logged when the directory differs from the previous
      file's and is a multiple of ReportInterval. */
  method SplitFile(fs: FileSystem, list: seq<Path>, i: nat, outDir: Path, command: string, n: nat,
                   lastUpdateDirIndex: int, ghost files0: map<Path, Content>, ghost dsts: seq<Path>,
                   ghost progress: seq<ProgressRecord>)
    returns (moved: Status, currentUpdateDirIndex: int, ghost progress': seq<ProgressRecord>)
    requires fs.Valid() && n >= 1 && i < |list|
    requires dsts == Destinations(outDir, n, list)
    requires fs.files == Replay(files0, command == "m", list, dsts, i)
    requires i == 0 ==> lastUpdateDirIndex == 0
    requires i > 0 ==> lastUpdateDirIndex == GetFileSplitDirIndex(i, n, |list|)
    requires progress == ProgressLog(command, n, |list|, i)
    modifies fs
    ensures fs.Valid() && fs.dirs == old(fs.dirs)
    ensures currentUpdateDirIndex == GetFileSplitDirIndex(i + 1, n, |list|)
    ensures moved.Success? ==> fs.files == Replay(files0, command == "m", list, dsts, i + 1)
    ensures moved.Success? ==> progress' == ProgressLog(command, n, |list|, i + 1)
    ensures moved.Failure? ==> fs.files == old(fs.files)
    ensures moved.Failure? ==>
      !fs.CanTransfer(command == "m", list[i], ShardPath(outDir, currentUpdateDirIndex, n), Basename(list[i]))
  {
    var fName := list[i];
    var fBaseName := Basename(fName);
    var subDirIndex := GetFileSplitDirIndex(i + 1, n, |list|);
    var subDirName := GetIthSubDirName(subDirIndex, n);
    var subDirPath := Join(outDir, subDirName);
    DestinationOf(outDir, n, list, i);
    moved := fs.Transfer(command == "m", fName, subDirPath, fBaseName);
    currentUpdateDirIndex := subDirIndex;
    ProgressLogStep(command, n, |list|, i, lastUpdateDirIndex);
    progress' := progress;
    if lastUpdateDirIndex != currentUpdateDirIndex && currentUpdateDirIndex % ReportInterval == 0 {
      progress' := progress + [ProgressRecord(Verb(command), subDirName)];
    }
  }
}
