/** Which split directory a file goes to (get_file_split_dir_index, dirsplitter.py:64-75).
    Positions are 1-based; directories are 1..numSplitDirs. Files are dealt out in contiguous
    blocks of numFiles / numSplitDirs, and whatever is left over lands in the last directory. */
module ShardAssignment {

  /** Python's a // b for a >= 0 and b >= 1, by repeated subtraction. Recursion keeps the
      division out of the solver's view wherever GetFileSplitDirIndex is unfolded;
      FloorDivIsDiv ties it to Dafny's / (which, for a positive divisor, rounds toward
      negative infinity just as // does). */
  function FloorDiv(a: int, b: int): nat
    requires a >= 0 && b >= 1
    decreases a
  {
    if a < b then 0 else FloorDiv(a - b, b) + 1
  }

  lemma {:induction false} FloorDivIsDiv(a: int, b: int)
    requires a >= 0 && b >= 1
    ensures FloorDiv(a, b) == a / b
    decreases a
  {
    var q := FloorDiv(a, b);
    if a >= b {
      FloorDivIsDiv(a - b, b);
      DivBlock(a - b, b);
      assert q * b == (a - b) / b * b + b;
      assert (q + 1) * b == ((a - b) / b + 1) * b + b;
    }
    DivUnique(a, b, q);
  }

  /** The quotient is the only q with q * b <= a < (q + 1) * b. */
  lemma DivUnique(a: int, b: int, q: int)
    requires a >= 0 && b >= 1 && q * b <= a < (q + 1) * b
    ensures q == a / b
  {
    DivBlock(a, b);
    MulLess(a / b, q + 1, b);
    MulLess(q, a / b + 1, b);
  }

  /** Files per directory before the remainder: num_files // num_split_dirs. */
  function PerDir(numSplitDirs: int, numFiles: int): (q: nat)
    requires numSplitDirs >= 1 && numFiles >= 0
  {
    FloorDiv(numFiles, numSplitDirs)
  }

  /** num_files_p_split is the quotient: the one q with q * K <= N < (q + 1) * K. */
  lemma PerDirBounds(numSplitDirs: int, numFiles: int)
    requires numSplitDirs >= 1 && numFiles >= 0
    ensures var q := PerDir(numSplitDirs, numFiles);
      q == numFiles / numSplitDirs && q * numSplitDirs <= numFiles < (q + 1) * numSplitDirs
  {
    FloorDivIsDiv(numFiles, numSplitDirs);
  }

  /** get_file_split_dir_index. The conditional tests the position before it divides, so when
      there are fewer files than directories (PerDir == 0) no division by zero happens. */
  function GetFileSplitDirIndex(fileIndex: int, numSplitDirs: int, numFiles: int): (r: int)
    requires 1 <= fileIndex && 1 <= numSplitDirs && 0 <= numFiles
    ensures 1 <= r <= numSplitDirs
  {
    var q := PerDir(numSplitDirs, numFiles);
    if fileIndex <= q * numSplitDirs then
      BlockIndexBound(fileIndex, numSplitDirs, q);
      FloorDiv(fileIndex - 1, q) + 1
    else
      numSplitDirs
  }

  /** Inside the first q * K positions the block index (p - 1) // q + 1 is a directory. */
  lemma BlockIndexBound(fileIndex: int, numSplitDirs: int, q: int)
    requires 1 <= fileIndex <= q * numSplitDirs && 1 <= numSplitDirs && q >= 0
    ensures q >= 1 && 1 <= FloorDiv(fileIndex - 1, q) + 1 <= numSplitDirs
  {
    FloorDivIsDiv(fileIndex - 1, q);
    DivBlock(fileIndex - 1, q);
    MulLess((fileIndex - 1) / q, numSplitDirs, q);
  }

  /** A position inside the first q * K positions goes to the directory whose block
      ((r-1)q, rq] holds it; a position past them goes to the last directory. */
  lemma SplitDirIndexBlock(fileIndex: int, numSplitDirs: int, numFiles: int)
    requires 1 <= fileIndex && 1 <= numSplitDirs && 0 <= numFiles
    ensures var q, r := PerDir(numSplitDirs, numFiles), GetFileSplitDirIndex(fileIndex, numSplitDirs, numFiles);
      (fileIndex > q * numSplitDirs ==> r == numSplitDirs) &&
      (fileIndex <= q * numSplitDirs ==> (r - 1) * q < fileIndex <= r * q)
  {
    var q := PerDir(numSplitDirs, numFiles);
    if fileIndex <= q * numSplitDirs {
      BlockIndexBound(fileIndex, numSplitDirs, q);
      FloorDivIsDiv(fileIndex - 1, q);
      DivBlock(fileIndex - 1, q);
    }
  }

  lemma DivBlock(x: int, q: int)
    requires x >= 0 && q >= 1
    ensures (x / q) * q <= x < (x / q + 1) * q
  {
  }

  /** a * q < b * q with q > 0 means a < b. */
  lemma MulLess(a: int, b: int, q: int)
    requires q >= 1
    ensures a * q < b * q <==> a < b
  {
    if a < b {
      assert b * q == a * q + (b - a) * q;
    } else {
      assert a * q == b * q + (a - b) * q;
    }
  }

  lemma MulMonotone(a: int, b: int, q: int)
    requires a <= b && q >= 0
    ensures a * q <= b * q
  {
    assert b * q == a * q + (b - a) * q;
  }

  /** Directory k < K receives exactly the positions ((k-1)q, kq]; directory K receives every
      position above (K-1)q, so the remainder folds into it. */
  lemma AssignedToBlock(p: int, k: int, numSplitDirs: int, numFiles: int)
    requires 1 <= p && 1 <= k <= numSplitDirs && 0 <= numFiles
    ensures var q := PerDir(numSplitDirs, numFiles);
      GetFileSplitDirIndex(p, numSplitDirs, numFiles) == k <==>
        if k < numSplitDirs then (k - 1) * q < p <= k * q else (numSplitDirs - 1) * q < p
  {
    var q, r := PerDir(numSplitDirs, numFiles), GetFileSplitDirIndex(p, numSplitDirs, numFiles);
    SplitDirIndexBlock(p, numSplitDirs, numFiles);
    if p <= q * numSplitDirs {
      BlockIndexBound(p, numSplitDirs, q);
      MulLess(k - 1, r, q);
      MulLess(r - 1, k, q);
    } else {
      MulMonotone(k, numSplitDirs, q);
      MulMonotone(numSplitDirs - 1, numSplitDirs, q);
    }
  }

  /** Later files never go to an earlier directory. */
  lemma AssignmentMonotone(p1: int, p2: int, numSplitDirs: int, numFiles: int)
    requires 1 <= p1 <= p2 && 1 <= numSplitDirs && 0 <= numFiles
    ensures GetFileSplitDirIndex(p1, numSplitDirs, numFiles) <= GetFileSplitDirIndex(p2, numSplitDirs, numFiles)
  {
    var q := PerDir(numSplitDirs, numFiles);
    var r1, r2 := GetFileSplitDirIndex(p1, numSplitDirs, numFiles), GetFileSplitDirIndex(p2, numSplitDirs, numFiles);
    SplitDirIndexBlock(p1, numSplitDirs, numFiles);
    SplitDirIndexBlock(p2, numSplitDirs, numFiles);
    if p2 <= q * numSplitDirs {
      MulLess(r1 - 1, r2, q);
    }
  }

  /** Number of positions among 1..m that go to directory k. */
  function CountAssigned(k: int, numSplitDirs: int, numFiles: int, m: nat): nat
    requires 1 <= numSplitDirs && 0 <= numFiles
  {
    if m == 0 then 0
    else CountAssigned(k, numSplitDirs, numFiles, m - 1)
         + (if GetFileSplitDirIndex(m, numSplitDirs, numFiles) == k then 1 else 0)
  }

  /** Counting the positions of 1..m that fall in the interval (lo, hi]. */
  lemma {:induction false} CountInterval(k: int, numSplitDirs: int, numFiles: int, m: nat, lo: nat, hi: nat)
    requires 1 <= numSplitDirs && 0 <= numFiles && lo <= hi
    requires forall p :: 1 <= p <= m ==>
      (GetFileSplitDirIndex(p, numSplitDirs, numFiles) == k <==> lo < p <= hi)
    ensures CountAssigned(k, numSplitDirs, numFiles, m) ==
      if m <= lo then 0 else if m <= hi then m - lo else hi - lo
  {
    if m > 0 {
      CountInterval(k, numSplitDirs, numFiles, m - 1, lo, hi);
    }
  }

  /** Directories 1..K-1 each receive exactly numFiles / K files (possibly none). */
  lemma BlockSize(k: int, numSplitDirs: int, numFiles: int)
    requires 1 <= k < numSplitDirs && 0 <= numFiles
    ensures CountAssigned(k, numSplitDirs, numFiles, numFiles) == numFiles / numSplitDirs
  {
    var q := PerDir(numSplitDirs, numFiles);
    PerDirBounds(numSplitDirs, numFiles);
    forall p | 1 <= p <= numFiles
      ensures GetFileSplitDirIndex(p, numSplitDirs, numFiles) == k <==> (k - 1) * q < p <= k * q
    {
      AssignedToBlock(p, k, numSplitDirs, numFiles);
    }
    assert (k - 1) * q <= k * q <= numFiles by {
      assert k * q == (k - 1) * q + q;
      assert numSplitDirs * q == k * q + (numSplitDirs - k) * q;
    }
    CountInterval(k, numSplitDirs, numFiles, numFiles, (k - 1) * q, k * q);
  }

  /** The last directory receives numFiles / K + numFiles % K files: the block plus the whole
      remainder, so it is never smaller than any other directory. */
  lemma LastBlockSize(numSplitDirs: int, numFiles: int)
    requires 1 <= numSplitDirs && 0 <= numFiles
    ensures CountAssigned(numSplitDirs, numSplitDirs, numFiles, numFiles)
            == numFiles / numSplitDirs + numFiles % numSplitDirs
  {
    var q := PerDir(numSplitDirs, numFiles);
    PerDirBounds(numSplitDirs, numFiles);
    var lo := (numSplitDirs - 1) * q;
    forall p | 1 <= p <= numFiles
      ensures GetFileSplitDirIndex(p, numSplitDirs, numFiles) == numSplitDirs <==> lo < p <= numFiles
    {
      AssignedToBlock(p, numSplitDirs, numSplitDirs, numFiles);
    }
    assert numSplitDirs * q == lo + q;
    CountInterval(numSplitDirs, numSplitDirs, numFiles, numFiles, lo, numFiles);
  }

  /** The whole partition: every position lands in one directory, directories below K get equal
      blocks, and the last one gets at least as many as any other. */
  lemma Partition(numSplitDirs: int, numFiles: int)
    requires 1 <= numSplitDirs && 0 <= numFiles
    ensures forall k :: 1 <= k < numSplitDirs ==>
      CountAssigned(k, numSplitDirs, numFiles, numFiles) == numFiles / numSplitDirs
    ensures CountAssigned(numSplitDirs, numSplitDirs, numFiles, numFiles)
            == numFiles / numSplitDirs + numFiles % numSplitDirs
    ensures forall k :: 1 <= k <= numSplitDirs ==>
      CountAssigned(k, numSplitDirs, numFiles, numFiles)
      <= CountAssigned(numSplitDirs, numSplitDirs, numFiles, numFiles)
  {
    forall k | 1 <= k < numSplitDirs
      ensures CountAssigned(k, numSplitDirs, numFiles, numFiles) == numFiles / numSplitDirs
    {
      BlockSize(k, numSplitDirs, numFiles);
    }
    LastBlockSize(numSplitDirs, numFiles);
  }

  /** Ten files over three directories: 1-3, 4-6 and 7-10. Two files over five: both in 5. */
  lemma AssignmentExamples()
    ensures forall p :: 1 <= p <= 3 ==> GetFileSplitDirIndex(p, 3, 10) == 1
    ensures forall p :: 4 <= p <= 6 ==> GetFileSplitDirIndex(p, 3, 10) == 2
    ensures forall p :: 7 <= p <= 10 ==> GetFileSplitDirIndex(p, 3, 10) == 3
    ensures GetFileSplitDirIndex(1, 5, 2) == 5 && GetFileSplitDirIndex(2, 5, 2) == 5
  {
    forall p | 1 <= p <= 10 ensures GetFileSplitDirIndex(p, 3, 10) == (if p <= 3 then 1 else if p <= 6 then 2 else 3) {
      AssignedToBlock(p, GetFileSplitDirIndex(p, 3, 10), 3, 10);
    }
  }
}
