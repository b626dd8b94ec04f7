/** The state of the file map part-way through split_directory's transfer loop. */
module Transfers {
  import opened Paths
  import opened FileListing
  import opened Fs

  /** The content of each of the first m sources is at its destination. */
  ghost predicate Placed(before: map<Path, Content>, after: map<Path, Content>,
                         srcs: seq<Path>, dsts: seq<Path>, m: nat)
    requires m <= |srcs| == |dsts|
  {
    forall i :: 0 <= i < m ==> srcs[i] in before && dsts[i] in after && after[dsts[i]] == before[srcs[i]]
  }

  /** The sources from m on have not been touched yet. */
  ghost predicate Pending(before: map<Path, Content>, after: map<Path, Content>, srcs: seq<Path>, m: nat)
    requires m <= |srcs|
  {
    forall i :: m <= i < |srcs| ==> srcs[i] in before && srcs[i] in after && after[srcs[i]] == before[srcs[i]]
  }

  /** A moved source is gone unless it was its own destination; a copied source is intact. */
  ghost predicate SourcesLeft(before: map<Path, Content>, after: map<Path, Content>,
                              srcs: seq<Path>, dsts: seq<Path>, move: bool, m: nat)
    requires m <= |srcs| == |dsts|
  {
    if move then forall i :: 0 <= i < m && srcs[i] in after ==> srcs[i] == dsts[i]
    else forall i :: 0 <= i < m ==> srcs[i] in before && srcs[i] in after && after[srcs[i]] == before[srcs[i]]
  }

  /** Path p is present in both maps or in neither, with the same content. */
  ghost predicate Unchanged(before: map<Path, Content>, after: map<Path, Content>, p: Path) {
    (p in after <==> p in before) && (p in after ==> after[p] == before[p])
  }

  /** No path other than the sources and the first m destinations changed. */
  ghost predicate Untouched(before: map<Path, Content>, after: map<Path, Content>,
                            srcs: seq<Path>, dsts: seq<Path>, m: nat)
    requires m <= |dsts|
  {
    forall p {:trigger Unchanged(before, after, p)} :: p !in srcs && p !in dsts[..m] ==> Unchanged(before, after, p)
  }

  /** The file map after the first m transfers of srcs to dsts. */
  ghost predicate Transferred(before: map<Path, Content>, after: map<Path, Content>,
                              srcs: seq<Path>, dsts: seq<Path>, move: bool, m: nat)
  {
    && |srcs| == |dsts| && m <= |srcs|
    && Placed(before, after, srcs, dsts, m)
    && Pending(before, after, srcs, m)
    && SourcesLeft(before, after, srcs, dsts, move, m)
    && Untouched(before, after, srcs, dsts, m)
  }

  /** No destination is another file's source or another file's destination. */
  ghost predicate Separated(srcs: seq<Path>, dsts: seq<Path>)
    requires |srcs| == |dsts|
  {
    forall i, j :: 0 <= i < |srcs| && 0 <= j < |srcs| && i != j ==> dsts[i] != srcs[j] && dsts[i] != dsts[j]
  }

  /** The file map after the first m transfers of srcs to dsts, made one after another; a
      transfer whose source is missing changes nothing. */
  function Replay(before: map<Path, Content>, move: bool, srcs: seq<Path>, dsts: seq<Path>, m: nat)
    : map<Path, Content>
    requires m <= |srcs| == |dsts|
    decreases m
  {
    if m == 0 then before
    else
      var current := Replay(before, move, srcs, dsts, m - 1);
      if srcs[m - 1] in current then MoveOrCopy(current, move, srcs[m - 1], dsts[m - 1]) else current
  }

  /** For distinct sources, all present, and destinations apart from the other files' sources
      and destinations, replaying the first m transfers leaves them Transferred. */
  lemma {:induction false} ReplayTransferred(before: map<Path, Content>, move: bool,
                                             srcs: seq<Path>, dsts: seq<Path>, m: nat)
    requires m <= |srcs| == |dsts|
    requires Distinct(srcs) && Separated(srcs, dsts)
    requires forall i :: 0 <= i < |srcs| ==> srcs[i] in before
    ensures Transferred(before, Replay(before, move, srcs, dsts, m), srcs, dsts, move, m)
    decreases m
  {
    if m > 0 {
      var k := m - 1;
      ReplayTransferred(before, move, srcs, dsts, k);
      var current := Replay(before, move, srcs, dsts, k);
      TransferStep(before, current, srcs, dsts, move, k);
      var after := MoveOrCopy(current, move, srcs[k], dsts[k]);
      assert Replay(before, move, srcs, dsts, m) == after;
      assert Transferred(before, after, srcs, dsts, move, m);
    }
  }

  /** Moving or copying file m, once the first m are done, keeps Transferred one file further. */
  lemma TransferStep(before: map<Path, Content>, current: map<Path, Content>,
                     srcs: seq<Path>, dsts: seq<Path>, move: bool, m: nat)
    requires Transferred(before, current, srcs, dsts, move, m) && m < |srcs|
    requires Distinct(srcs) && Separated(srcs, dsts)
    ensures srcs[m] in current
    ensures Transferred(before, MoveOrCopy(current, move, srcs[m], dsts[m]), srcs, dsts, move, m + 1)
  {
    PlacedStep(before, current, srcs, dsts, move, m);
    PendingStep(before, current, srcs, dsts, move, m);
    SourcesLeftStep(before, current, srcs, dsts, move, m);
    UntouchedStep(before, current, srcs, dsts, move, m);
  }

  lemma PlacedStep(before: map<Path, Content>, current: map<Path, Content>,
                   srcs: seq<Path>, dsts: seq<Path>, move: bool, m: nat)
    requires m < |srcs| == |dsts| && Separated(srcs, dsts)
    requires Placed(before, current, srcs, dsts, m) && Pending(before, current, srcs, m)
    ensures Placed(before, MoveOrCopy(current, move, srcs[m], dsts[m]), srcs, dsts, m + 1)
  {
    var after := MoveOrCopy(current, move, srcs[m], dsts[m]);
    forall i | 0 <= i < m + 1 ensures srcs[i] in before && dsts[i] in after && after[dsts[i]] == before[srcs[i]] {
      if i < m { assert dsts[i] != dsts[m] && dsts[i] != srcs[m]; }
    }
  }

  lemma PendingStep(before: map<Path, Content>, current: map<Path, Content>,
                    srcs: seq<Path>, dsts: seq<Path>, move: bool, m: nat)
    requires m < |srcs| == |dsts| && Distinct(srcs) && Separated(srcs, dsts)
    requires Pending(before, current, srcs, m)
    ensures srcs[m] in current
    ensures Pending(before, MoveOrCopy(current, move, srcs[m], dsts[m]), srcs, m + 1)
  {
    var after := MoveOrCopy(current, move, srcs[m], dsts[m]);
    forall i | m + 1 <= i < |srcs| ensures srcs[i] in before && srcs[i] in after && after[srcs[i]] == before[srcs[i]] {
      assert srcs[i] != dsts[m] && srcs[i] != srcs[m];
    }
  }

  lemma SourcesLeftStep(before: map<Path, Content>, current: map<Path, Content>,
                        srcs: seq<Path>, dsts: seq<Path>, move: bool, m: nat)
    requires m < |srcs| == |dsts| && Separated(srcs, dsts)
    requires SourcesLeft(before, current, srcs, dsts, move, m) && Pending(before, current, srcs, m)
    ensures SourcesLeft(before, MoveOrCopy(current, move, srcs[m], dsts[m]), srcs, dsts, move, m + 1)
  {
    var after := MoveOrCopy(current, move, srcs[m], dsts[m]);
    if move {
      forall i | 0 <= i < m + 1 && srcs[i] in after ensures srcs[i] == dsts[i] {
        if i < m { assert srcs[i] != dsts[m]; }
      }
    } else {
      forall i | 0 <= i < m + 1 ensures srcs[i] in before && srcs[i] in after && after[srcs[i]] == before[srcs[i]] {
        if i < m { assert srcs[i] != dsts[m]; }
      }
    }
  }

  lemma UntouchedStep(before: map<Path, Content>, current: map<Path, Content>,
                      srcs: seq<Path>, dsts: seq<Path>, move: bool, m: nat)
    requires m < |srcs| == |dsts| && Pending(before, current, srcs, m)
    requires Untouched(before, current, srcs, dsts, m)
    ensures Untouched(before, MoveOrCopy(current, move, srcs[m], dsts[m]), srcs, dsts, m + 1)
  {
    var after := MoveOrCopy(current, move, srcs[m], dsts[m]);
    assert dsts[..m + 1] == dsts[..m] + [dsts[m]];
    forall p | p !in srcs && p !in dsts[..m + 1] ensures Unchanged(before, after, p) {
      assert p !in dsts[..m] && p != dsts[m] && p != srcs[m];
      assert Unchanged(before, current, p);
    }
  }
}
