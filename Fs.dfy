/** The filesystem the splitter works on: a set of directory paths and a map from regular-file
    paths to their contents, with the few primitives dirsplitter.py calls (os.listdir,
    os.makedirs, os.mkdir, shutil.move, shutil.copy); os.path.isfile(p) is p in files. */
module Fs {
  import opened Paths
  import opened FileListing

  type Content = seq<bv8>

  /** The exceptions that end a run: the OSError subclasses the primitives raise, and the
      arithmetic error a split count below 1 causes. */
  datatype FsError =
    | NotFound(path: Path)          // FileNotFoundError
    | NotADirectory(path: Path)     // NotADirectoryError
    | AlreadyExists(path: Path)     // FileExistsError
    | IsADirectory(path: Path)      // the destination is an existing directory
    | SameFile(path: Path)          // shutil.SameFileError
    | BadSplitCount(n: int)         // ZeroDivisionError (n == 0) or ValueError from log10 (n < 0)

  datatype Status = Success | Failure(error: FsError)

  datatype Listing = Listed(names: seq<string>) | ListingFailed(error: FsError)

  /** Some proper ancestor of p, a prefix of it that ends just before a '/', is a regular file. */
  predicate UnderFile(fileKeys: set<Path>, p: Path) {
    FileAmongPrefixes(fileKeys, p, |p|)
  }

  /** Some prefix p[..j] with 0 < j < k that ends just before a '/' is a regular file. */
  predicate FileAmongPrefixes(fileKeys: set<Path>, p: Path, k: nat)
    requires k <= |p|
    ensures FileAmongPrefixes(fileKeys, p, k) <==>
      exists j :: 0 < j < k && p[j] == '/' && p[..j] in fileKeys
    decreases k
  {
    k > 1 && (FileAmongPrefixes(fileKeys, p, k - 1) || (p[k - 1] == '/' && p[..k - 1] in fileKeys))
  }

  /** The OSError for a path that is not there in the form needed: NotADirectoryError when one
      of its ancestors is a regular file, or the path itself is one where a directory is
      needed; FileNotFoundError otherwise. */
  function MissingPathError(fileKeys: set<Path>, p: Path): FsError {
    if p in fileKeys || UnderFile(fileKeys, p) then NotADirectory(p) else NotFound(p)
  }

  class FileSystem {
    var dirs: set<Path>
    var files: map<Path, Content>

    /** A path is either a directory or a regular file, never both, and the empty path is
        neither: the operating system resolves "" to nothing. */
    ghost predicate Valid()
      reads this
    {
      dirs !! files.Keys && [] !in dirs && [] !in files
    }

    constructor (dirs0: set<Path>, files0: map<Path, Content>)
      requires dirs0 !! files0.Keys && [] !in dirs0 && [] !in files0
      ensures Valid() && dirs == dirs0 && files == files0
    {
      dirs, files := dirs0, files0;
    }

    predicate Exists(p: Path)
      reads this
    {
      p in dirs || p in files
    }

    /** os.listdir(d): the names of d's entries, without duplicates, in no particular order. */
    method ListDir(d: Path) returns (r: Listing)
      requires Valid()
      ensures d in dirs ==> r.Listed? && Distinct(r.names)
      ensures d in dirs ==> forall n :: n in r.names <==> IsName(n) && Exists(Join(d, n))
      ensures d !in dirs ==> r == ListingFailed(MissingPathError(files.Keys, d))
    {
      if d !in dirs {
        return ListingFailed(MissingPathError(files.Keys, d));
      }
      var children := set p | p in files.Keys + dirs && IsChildOf(p, d) :: Basename(p);
      forall n | IsName(n) && Exists(Join(d, n)) ensures n in children {
        JoinIsChild(d, n);
        BasenameOfJoin(d, n);
      }
      var names: seq<string> := [];
      var rest := children;
      while rest != {}
        invariant rest <= children
        invariant Distinct(names)
        invariant forall x :: x in names ==> x in children && x !in rest
        invariant forall x :: x in children ==> x in names || x in rest
        decreases |rest|
      {
        var x :| x in rest;
        names := names + [x];
        rest := rest - {x};
      }
      return Listed(names);
    }

    /** os.makedirs(p): FileNotFoundError for the empty path (its final os.mkdir("") fails),
        NotADirectoryError when an ancestor of p is a regular file, and FileExistsError when p
        already exists (as a directory or as a file); all leave everything as it was.
        Otherwise p is added (missing ancestors are not). */
    method MakeDirs(p: Path) returns (r: Status)
      requires Valid()
      modifies this
      ensures Valid() && files == old(files)
      ensures p == [] ==> r == Failure(NotFound(p)) && dirs == old(dirs)
      ensures UnderFile(files.Keys, p) ==> r == Failure(NotADirectory(p)) && dirs == old(dirs)
      ensures !UnderFile(files.Keys, p) && old(Exists(p)) ==>
        r == Failure(AlreadyExists(p)) && dirs == old(dirs)
      ensures p != [] && !UnderFile(files.Keys, p) && !old(Exists(p)) ==> r == Success && dirs == old(dirs) + {p}
    {
      if p == [] {
        return Failure(NotFound(p));
      }
      if UnderFile(files.Keys, p) {
        return Failure(NotADirectory(p));
      }
      if Exists(p) {
        return Failure(AlreadyExists(p));
      }
      dirs := dirs + {p};
      return Success;
    }

    /** os.mkdir(Join(parent, name)): the parent must be a directory, and the new path must
        not exist yet. */
    method Mkdir(parent: Path, name: string) returns (r: Status)
      requires Valid()
      modifies this
      ensures Valid() && files == old(files)
      ensures parent !in old(dirs) ==> r == Failure(MissingPathError(files.Keys, parent)) && dirs == old(dirs)
      ensures parent in old(dirs) && old(Exists(Join(parent, name))) ==>
        r == Failure(AlreadyExists(Join(parent, name))) && dirs == old(dirs)
      ensures parent in old(dirs) && !old(Exists(Join(parent, name))) ==>
        r == Success && dirs == old(dirs) + {Join(parent, name)}
    {
      if parent !in dirs {
        return Failure(MissingPathError(files.Keys, parent));
      }
      var p := Join(parent, name);
      if Exists(p) {
        return Failure(AlreadyExists(p));
      }
      dirs := dirs + {p};
      return Success;
    }

    predicate CanTransfer(move: bool, src: Path, dstDir: Path, name: string)
      reads this
    {
      CanTransferIn(dirs, files, move, src, dstDir, name)
    }

    /** shutil.move(src, dst) / shutil.copy(src, dst) with dst = Join(dstDir, name): the
        content of src appears at dst, replacing a file already there; a move also removes src
        (moving a file onto itself changes nothing). */
    method Transfer(move: bool, src: Path, dstDir: Path, name: string) returns (r: Status)
      requires Valid()
      modifies this
      ensures Valid() && dirs == old(dirs)
      ensures r.Success? <==> old(CanTransfer(move, src, dstDir, name))
      ensures r.Success? ==> files == MoveOrCopy(old(files), move, src, Join(dstDir, name))
      ensures r.Failure? ==> files == old(files)
      ensures src !in old(files) ==> r == Failure(MissingPathError(files.Keys, src))
      ensures src in old(files) && !move && src == Join(dstDir, name) ==> r == Failure(SameFile(src))
    {
      var dst := Join(dstDir, name);
      if src !in files {
        return Failure(MissingPathError(files.Keys, src));
      }
      if !move && src == dst {
        return Failure(SameFile(src));
      }
      if dstDir !in dirs {
        return Failure(MissingPathError(files.Keys, dstDir));
      }
      if dst in dirs {
        return Failure(IsADirectory(dst));
      }
      files := MoveOrCopy(files, move, src, dst);
      return Success;
    }
  }

  /** What shutil.move (move) or shutil.copy (not move) needs in order to put src at
      Join(dstDir, name). */
  predicate CanTransferIn(dirs: set<Path>, files: map<Path, Content>, move: bool, src: Path, dstDir: Path, name: string) {
    var dst := Join(dstDir, name);
    src in files && dstDir in dirs && dst !in dirs && (move || src != dst)
  }

  /** The file map after moving or copying src to dst. */
  function MoveOrCopy(files: map<Path, Content>, move: bool, src: Path, dst: Path): (after: map<Path, Content>)
    requires src in files
    ensures dst in after && after[dst] == files[src]
    ensures after.Keys == if move then files.Keys - {src} + {dst} else files.Keys + {dst}
    ensures forall p :: p in files && p != src && p != dst ==> p in after && after[p] == files[p]
    ensures !move ==> src in after && (src != dst ==> after[src] == files[src])
  {
    if move then (files - {src})[dst := files[src]] else files[dst := files[src]]
  }
}
