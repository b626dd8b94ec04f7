# dirsplitter in Dafny

`dirsplitter.py` spreads the regular files of one input directory over `n` numbered
sub-directories of an output directory, by moving or by copying them. This project models
that core and proves what it promises:

- `get_file_list` is modelled as a sorted filter over an abstract directory listing.
- `get_ith_sub_dir_name` is modelled as integer zero-padding of the decimal index to the
  width of `n`.
- `get_file_split_dir_index` deals the sorted files out in contiguous blocks of
  `num_files // n`, and the remainder goes to the last directory.
- `create_split_dirs` makes the output directory and its `n` sub-directories, and tolerates
  ones that already exist.
- `split_directory` moves or copies every file to `out/<name>/<basename>`, in list order,
  and logs a progress record whenever it enters a new sub-directory whose index is a
  multiple of 100.

The filesystem is a class, `Fs.FileSystem`. It has a set of directory paths and a map from
regular-file paths to contents. Its methods stand for the primitives the program calls:
`os.listdir`, `os.makedirs`, `os.mkdir`, `shutil.move` and `shutil.copy`. `os.path.isfile`
is membership in the file map. In the model, each primitive either fails with one of the
exceptions listed in `Fs.FsError`, or changes the state as its `ensures` clauses say. The
failures the model leaves out are listed under "Left out".

The file map after `m` transfers is `Transfers.Replay`: the transfers applied one after
another. `Transfers.ReplayTransferred` proves what that map means:

- the first `m` files sit at their destinations with their contents;
- the later files are untouched;
- a moved source is gone and a copied source is intact;
- no other path changed.

The progress log is a ghost sequence of (verb, sub-directory name) records. The verb is
"Copying" exactly when the command is "c", and the files are moved exactly when the command
is "m". A command that is neither therefore copies while logging "Moving", as the source
does. The command line only accepts "m" and "c".

Python's `//` on non-negative integers is `ShardAssignment.FloorDiv`, proved equal to
Dafny's `/`. `math.floor(math.log10(n))` is the integer `Decimal.FloorLog10`. `str` and
`int` on non-negative integers are `Decimal.DecimalString` and `Decimal.ParseDecimal`.
`os.path.join` and `os.path.basename` on POSIX are `Paths.Join` and `Paths.Basename`.

## Model

| member | source | states |
|---|---|---|
| Decimal.FloorLog10 | dirsplitter.py:60 | floor(log10 n) is the exponent e with 10^e <= n < 10^(e+1) |
| Decimal.FloorLog10Unique | dirsplitter.py:60 | that bracketing by powers of ten fixes the exponent, so FloorLog10 is floor(log10) |
| Decimal.FloorLog10Monotone | dirsplitter.py:60 | i <= n gives floor(log10 i) <= floor(log10 n), so the zero count is never negative for 1 <= i <= n |
| Decimal.Zeros | dirsplitter.py:61 | '0' * k has length k and only '0' characters |
| Decimal.DecimalString | dirsplitter.py:61 | str(n) is all digits, and for n >= 1 it has floor(log10 n) + 1 of them and no leading zero |
| Decimal.ParseDecimalString | dirsplitter.py:61 | int(str(n)) == n |
| Decimal.ParseDecimalAppend | dirsplitter.py:61 | reading a concatenation of digit strings: value(a + b) == value(a) * 10^len(b) + value(b) |
| Decimal.ParseDecimalLeadingZeros | dirsplitter.py:61 | leading '0's do not change the value int() reads |
| ShardNaming.Width | dirsplitter.py:60 | the digit count of n: 10^(w-1) <= n < 10^w |
| ShardNaming.GetIthSubDirName | dirsplitter.py:50-61 | for 1 <= i <= n the name has the width of n, is all digits, and reads back as i |
| ShardNaming.SubDirNameShape | dirsplitter.py:60-61 | the name is some '0' characters followed by str(i) |
| ShardNaming.SubDirNameFixedWidth | dirsplitter.py:60-61 | all names for one n have the same length, floor(log10 n) + 1 |
| ShardNaming.SubDirNameInjective | dirsplitter.py:60-61 | two indices in 1..n get the same name exactly when they are equal |
| ShardNaming.LastSubDirNameUnpadded | dirsplitter.py:60-61 | the name of directory n is str(n) and does not start with '0' |
| ShardNaming.SubDirNameIsComponent | dirsplitter.py:94-95 | a name is one non-empty path component: no '/', not "." or ".." |
| ShardNaming.SubDirNameExamples | dirsplitter.py:52-53 | (10, 100) gives "010", (100, 100) gives "100" and (7, 9) gives "7" |
| ShardAssignment.FloorDiv | dirsplitter.py:74-75 | Python's a // b on a >= 0 and b >= 1 by repeated subtraction; FloorDivIsDiv states its value |
| ShardAssignment.FloorDivIsDiv | dirsplitter.py:74 | Python's a // b by repeated subtraction equals a / b for a >= 0 and b >= 1 |
| ShardAssignment.PerDir | dirsplitter.py:74 | num_files_p_split = num_files // num_split_dirs; PerDirBounds states its value |
| ShardAssignment.PerDirBounds | dirsplitter.py:74 | num_files_p_split q satisfies q * K <= N < (q + 1) * K |
| ShardAssignment.GetFileSplitDirIndex | dirsplitter.py:64-75 | the index is in 1..K for every position, even when N < K and the per-directory count is 0 |
| ShardAssignment.BlockIndexBound | dirsplitter.py:75 | when the position is at most q * K, q >= 1 (no division by zero) and (p - 1) // q + 1 is in 1..K |
| ShardAssignment.SplitDirIndexBlock | dirsplitter.py:74-75 | a position above q * K goes to K; one at or below q * K goes to the r with (r - 1) * q < p <= r * q |
| ShardAssignment.AssignedToBlock | dirsplitter.py:74-75 | directory k < K gets exactly the positions in ((k-1)q, kq], and directory K gets every position above (K-1)q |
| ShardAssignment.AssignmentMonotone | dirsplitter.py:74-75 | a later position never goes to an earlier directory |
| ShardAssignment.CountInterval | dirsplitter.py:74-75 | the count of positions 1..m that go to k, when k's positions form the interval (lo, hi] |
| ShardAssignment.BlockSize | dirsplitter.py:74-75 | each directory 1..K-1 receives exactly N // K of the N files |
| ShardAssignment.LastBlockSize | dirsplitter.py:74-75 | directory K receives N // K + N % K files |
| ShardAssignment.Partition | dirsplitter.py:74-75 | equal blocks below K, and directory K is never smaller than any other |
| ShardAssignment.AssignmentExamples | dirsplitter.py:74-75 | N = 10, K = 3 gives 1-3, 4-6 and 7-10; N = 2, K = 5 puts both files in directory 5 |
| Paths.Join | dirsplitter.py:47 | os.path.join on POSIX (also dirsplitter.py:95, 135 and 137); BasenameOfJoin, JoinInjective and JoinIsChild state its properties |
| Paths.Basename | dirsplitter.py:131 | os.path.basename on POSIX, everything after the last '/'; BasenameOfJoin states that it undoes Join |
| Paths.BasenameOfJoin | dirsplitter.py:131-137 | the basename of dir joined with an entry name is that name |
| Paths.JoinInjective | dirsplitter.py:47 | within one directory, different entry names give different paths |
| Paths.JoinIsChild | dirsplitter.py:47 | dir joined with an entry name is a direct child of dir |
| FileListing.LexLeqTotal | dirsplitter.py:47 | Python's str ordering is total |
| FileListing.LexLeqAntisymmetric | dirsplitter.py:47 | Python's str ordering is antisymmetric |
| FileListing.LexLeqTransitive | dirsplitter.py:47 | Python's str ordering is transitive |
| FileListing.Insert | dirsplitter.py:47 | inserting into a sorted list gives a sorted list holding one more x |
| FileListing.SortedCons | dirsplitter.py:47 | a least element put in front of a sorted list keeps it sorted |
| FileListing.Sort | dirsplitter.py:47 | sorted() returns a sorted permutation of its argument |
| FileListing.RegularFiles | dirsplitter.py:47 | the comprehension keeps exactly the joined entries that are regular files |
| FileListing.GetFileList | dirsplitter.py:38-47 | the result is sorted and holds exactly the regular files among dir_path joined with each listed entry |
| FileListing.RegularFilesDistinct | dirsplitter.py:47 | distinct entry names give a list without duplicates |
| FileListing.DistinctPermutation | dirsplitter.py:47 | sorting keeps the list free of duplicates |
| FileListing.FileListWellFormed | dirsplitter.py:47 | the file list has no duplicates, is strictly ascending, and holds only direct children of dir_path |
| Fs.FileSystem.ListDir | dirsplitter.py:47 | os.listdir lists each entry name of a directory once, and fails with NotADirectory or NotFound otherwise |
| Fs.FileSystem.MakeDirs | dirsplitter.py:88-91 | os.makedirs raises FileNotFoundError for the empty path, NotADirectoryError when an ancestor of the path is a regular file, and FileExistsError when the path exists; otherwise it adds the path; a failure changes nothing |
| Fs.FileSystem.Mkdir | dirsplitter.py:97-100 | os.mkdir needs an existing parent directory (NotADirectory when the parent or one of its ancestors is a regular file, NotFound otherwise); it adds the new path, or raises FileExistsError when the path exists |
| Fs.FileSystem.Transfer | dirsplitter.py:125-139 | shutil.move or shutil.copy succeeds exactly when CanTransfer holds, and the map then becomes MoveOrCopy of the old map; a missing source fails before the same-file test of a copy; a failure changes nothing |
| Fs.MoveOrCopy | dirsplitter.py:139 | dst gets src's content; a move drops src unless src is dst, a copy keeps it; no other path changes |
| Transfers.Replay | dirsplitter.py:130-139 | the file map after the loop's first m transfers, applied in list order; ReplayTransferred states what it holds |
| Transfers.ReplayTransferred | dirsplitter.py:130-139 | after m transfers, in order, of distinct sources to separated destinations, the first m are placed, the rest pending, moved sources gone, copied ones intact, and nothing else touched |
| Transfers.TransferStep | dirsplitter.py:139 | one more move or copy extends Transferred from m files to m + 1 |
| Transfers.PlacedStep | dirsplitter.py:139 | the step keeps every earlier file at its destination and places file m |
| Transfers.PendingStep | dirsplitter.py:139 | the step leaves the files after m untouched |
| Transfers.SourcesLeftStep | dirsplitter.py:125-139 | the step keeps moved sources gone and copied sources intact |
| Transfers.UntouchedStep | dirsplitter.py:139 | the step changes no path other than file m's source and destination |
| Splitter.ShardPath | dirsplitter.py:93-95 | sub_dir_path, the parent joined with the i-th name (also dirsplitter.py:135); ShardPathInjective states its properties |
| Splitter.ShardPathInjective | dirsplitter.py:93-95 | a split directory is a direct child of the parent named by its index, and distinct indices give distinct paths |
| Splitter.ShardPathsUpToCount | dirsplitter.py:93-95 | the first m split directories have m distinct paths |
| Splitter.ShardPathsUpToStep | dirsplitter.py:93-95 | iteration i adds the path of directory i to the first i - 1 |
| Splitter.ShardPathsCount | dirsplitter.py:93-95 | the n split directories have n distinct paths |
| Splitter.CreatedDirsContents | dirsplitter.py:88-100 | with no regular file in the way, the parent and all n split directories exist afterwards and nothing that existed is gone |
| Splitter.CreatedDirsIdempotent | dirsplitter.py:88-100 | creating the directories a second time gives the same directory set |
| Splitter.CreatedDirsStep | dirsplitter.py:93-100 | making directory i adds its path to the set made for the first i - 1, unless a regular file holds that path |
| Splitter.CreationFails | dirsplitter.py:88-100 | the errors that escape create_split_dirs: FileNotFoundError from os.makedirs for an empty parent, NotADirectoryError from os.makedirs when an ancestor of the parent is a regular file, and NotADirectoryError from the first os.mkdir when the parent itself is one and n >= 1 |
| Splitter.CreateSplitDirs | dirsplitter.py:78-100 | FileExistsError is swallowed; it fails exactly when CreationFails holds, with CreationError (NotFound for the empty parent, NotADirectory otherwise) and no change; on success the directory set is CreatedDirs of the old one; the file map is never changed |
| Splitter.MakeSplitDir | dirsplitter.py:94-100 | one pass of the loop: with parent a directory, the set grows by directory i or stays the same when it already exists; with parent a regular file, it fails with NotADirectory |
| Splitter.DestinationOf | dirsplitter.py:131-137 | new_f_name of the file at index i is out/name(assign(i + 1))/basename(f) |
| Splitter.DestinationsSeparate | dirsplitter.py:130-139 | every destination keeps its source's basename, and no destination is another file's source or another file's destination |
| Splitter.Verb | dirsplitter.py:143 | 'Copying' for command "c", 'Moving' for any other; ProgressLogRecords states what the log's verbs are |
| Splitter.Reported | dirsplitter.py:127-145 | the record for a position is due when its sub-directory index differs from the previous file's and is a multiple of n_k_print (ReportInterval, 100, dirsplitter.py:128); ProgressLogStep and ReportedDirectories state what it means |
| Splitter.ProgressLog | dirsplitter.py:141-145 | the records logged for the first m files, in order; ProgressLogStep and ProgressLogRecords state its properties |
| Splitter.ProgressLogRecords | dirsplitter.py:141-145 | the log has at most one record per file; each record's verb is 'Copying' exactly when the command is "c" and 'Moving' otherwise, and it names a split directory whose index is a positive multiple of 100 |
| Splitter.ProgressLogStep | dirsplitter.py:141-145 | the record for a file is due exactly when its index differs from the previous file's and is a multiple of 100, and then it is appended to the log |
| Splitter.ReportedOnce | dirsplitter.py:141-145 | a position that opens a new sub-directory, as every reported one does, goes higher than every earlier position, so no sub-directory is reported twice |
| Splitter.ReportedOnlyIfFilled | dirsplitter.py:141-145 | only a multiple of 100 that receives a file is reported, and below n that needs N >= n |
| Splitter.FirstOfDirectory | dirsplitter.py:141-145 | a directory that receives files has a first position, and the position before it goes to the previous directory |
| Splitter.FirstInBlock | dirsplitter.py:74-75 | position (k-1)q + 1 exists and goes to directory k |
| Splitter.LastInBlock | dirsplitter.py:74-75 | position kq goes to directory k < n |
| Splitter.ReportedDirectories | dirsplitter.py:141-145 | directory k is reported exactly when it is a multiple of 100 in 1..n that receives a file |
| Splitter.ListFiles | dirsplitter.py:38-47 | on a directory, the result is sorted, without duplicates, and holds exactly its regular-file children; otherwise NotADirectory (the path or an ancestor is a regular file) or NotFound |
| Splitter.SplitDirectory | dirsplitter.py:103-145 | the listing error cases with nothing changed; otherwise the list is the sorted regular files of the input directory and the run ends as SplitOutcome says |
| Splitter.SplitOutcome | dirsplitter.py:121-145 | the outcome after the listing: the CreationError abort when CreationFails; the new directory set; n < 1 failing at the first file; the file map as Replay of the old one and what Transferred says of it; success exactly when all files are transferred; a failure names the file whose transfer is refused; the log |
| Splitter.SplitFileList | dirsplitter.py:121-145 | creating the directories and running the transfer loop over a file list of the input directory ends as SplitOutcome says |
| Splitter.TransferFiles | dirsplitter.py:125-145 | after the loop the map is Replay of the old map over the transferred files, success means all of them, a failure names the file whose transfer CanTransfer rejects, and the log is ProgressLog |
| Splitter.SplitFile | dirsplitter.py:130-145 | one iteration: the index is assign(i + 1); on success the map advances one Replay step and the log one ProgressLog step; on failure nothing changes |

## Left out

- The command line (`main`, dirsplitter.py:148-168), the logger set-up and the timing decorator (dirsplitter.py:10-35) are not modelled. The decorator reads the wall clock.
- The log message at dirsplitter.py:121 is not modelled. Only the progress records of dirsplitter.py:143 are kept, as a ghost sequence.
- ShardNaming.GetIthSubDirName: requires 1 <= i <= n. Outside that range the floating-point `math.log10` raises, or yields a negative zero count, and these artefacts are not modelled. Rounding of `math.log10` near powers of ten is not modelled either: the model uses the exact integer digit count.
- ShardAssignment.GetFileSplitDirIndex: requires numSplitDirs >= 1 and numFiles >= 0, and the model calls it only then. For n < 1 the source raises at the first file: ZeroDivisionError at dirsplitter.py:74 for n == 0, and ValueError from `math.log10` at dirsplitter.py:60 for n < 0. Splitter.SplitFileList models both as BadSplitCount.
- Fs.FileSystem.MakeDirs: adds only the requested path. It does not create missing ancestors as `os.makedirs` does, because directories are a flat set of paths with no parent links.
- Fs.FileSystem.MakeDirs: the NotADirectoryError raised below a regular file carries the requested path. Python names the first missing path below that file.
- Fs.FileSystem.MakeDirs / Fs.FileSystem.Mkdir / Splitter.CreateSplitDirs: PermissionError and other OSErrors, such as a read-only or full filesystem, are not modelled. In the model, creating a directory fails only with NotADirectory, NotFound or AlreadyExists.
- Paths and Fs: every stored path and every path passed in is assumed canonical, with no trailing '/', no '.' or '..' component and no repeated '/'. Paths are compared as exact strings, so "in/" and "in" would name different entries in the model, while the operating system resolves them to the same one. The empty path is never a stored entry, so os.listdir(""), os.makedirs("") and a transfer into "" fail with FileNotFoundError, as they do on the operating system.
- Fs.FileSystem.Transfer: a destination that is an existing directory is an IsADirectory failure. The real `shutil.move` and `shutil.copy` would instead put the file inside that directory, and the source does not rely on that behaviour.
- Fs.FileSystem.Transfer: failures other than the modelled ones are not modelled. Permissions, full disks, cross-device moves, metadata and symbolic links are all out. A source that is a directory is reported as missing, because the splitter only passes regular files from its list.
- Fs.FileSystem.ListDir: the order of `os.listdir` is whatever the loop picks. Only its contents are specified, and the sorted file list does not depend on the order.
- Other processes changing the filesystem during a run are not modelled. All calls run one after another on one `FileSystem` object.

