/** The file list of get_file_list (dirsplitter.py:38-47): the regular-file entries of a
    directory listing, joined onto the directory, in Python's ascending string order. */
module FileListing {
  import opened Paths

  /** Python's a <= b on str: lexicographic by code point. */
  predicate LexLeq(a: string, b: string) {
    a == [] || (b != [] && (a[0] < b[0] || (a[0] == b[0] && LexLeq(a[1..], b[1..]))))
  }

  lemma {:induction false} LexLeqTotal(a: string, b: string)
    ensures LexLeq(a, b) || LexLeq(b, a)
  {
    if a != [] && b != [] && a[0] == b[0] {
      LexLeqTotal(a[1..], b[1..]);
    }
  }

  lemma {:induction false} LexLeqAntisymmetric(a: string, b: string)
    requires LexLeq(a, b) && LexLeq(b, a)
    ensures a == b
  {
    if a != [] && b != [] {
      LexLeqAntisymmetric(a[1..], b[1..]);
      assert a == [a[0]] + a[1..] && b == [b[0]] + b[1..];
    }
  }

  lemma {:induction false} LexLeqTransitive(a: string, b: string, c: string)
    requires LexLeq(a, b) && LexLeq(b, c)
    ensures LexLeq(a, c)
  {
    if a != [] && b != [] && c != [] && a[0] == b[0] == c[0] {
      LexLeqTransitive(a[1..], b[1..], c[1..]);
    }
  }

  predicate Sorted(s: seq<string>) {
    forall i, j :: 0 <= i < j < |s| ==> LexLeq(s[i], s[j])
  }

  predicate Distinct(s: seq<string>) {
    forall i, j :: 0 <= i < j < |s| ==> s[i] != s[j]
  }

  function Insert(x: string, s: seq<string>): (r: seq<string>)
    requires Sorted(s)
    ensures Sorted(r) && multiset(r) == multiset(s) + multiset{x}
  {
    if s == [] then [x]
    else if LexLeq(x, s[0]) then
      assert forall y :: y in s ==> LexLeq(x, y) by {
        forall y | y in s ensures LexLeq(x, y) {
          if y != s[0] { LexLeqTransitive(x, s[0], y); }
        }
      }
      SortedCons(x, s);
      [x] + s
    else
      var t := Insert(x, s[1..]);
      assert s == [s[0]] + s[1..];
      assert forall y :: y in t ==> LexLeq(s[0], y) by {
        LexLeqTotal(x, s[0]);
        forall y | y in t ensures LexLeq(s[0], y) {
          assert y in multiset(t);
          if y != x {
            assert y in s[1..];
          }
        }
      }
      SortedCons(s[0], t);
      [s[0]] + t
  }

  /** Putting a least element in front of a sorted list keeps it sorted. */
  lemma SortedCons(h: string, t: seq<string>)
    requires Sorted(t) && forall y :: y in t ==> LexLeq(h, y)
    ensures Sorted([h] + t)
  {
    var r := [h] + t;
    forall i, j | 0 <= i < j < |r| ensures LexLeq(r[i], r[j]) {
      assert r[j] == t[j - 1];
      if i > 0 { assert r[i] == t[i - 1]; }
    }
  }

  /** Python's sorted() on a list of str. */
  function Sort(s: seq<string>): (r: seq<string>)
    ensures Sorted(r) && multiset(r) == multiset(s)
  {
    if s == [] then []
    else
      assert s == [s[0]] + s[1..];
      Insert(s[0], Sort(s[1..]))
  }

  /** The list comprehension: join every listed entry onto dirPath and keep the regular files. */
  function RegularFiles(dirPath: Path, listing: seq<string>, regular: set<Path>): (r: seq<Path>)
    ensures forall x :: x in r <==> x in regular && exists f :: f in listing && x == Join(dirPath, f)
  {
    if listing == [] then []
    else
      var p := Join(dirPath, listing[0]);
      var rest := RegularFiles(dirPath, listing[1..], regular);
      assert forall f :: f in listing <==> f == listing[0] || f in listing[1..];
      (if p in regular then [p] else []) + rest
  }

  /** get_file_list: sorted paths of the regular files among the listed entries. */
  function GetFileList(dirPath: Path, listing: seq<string>, regular: set<Path>): (r: seq<Path>)
    ensures Sorted(r)
    ensures forall x :: x in r <==> x in regular && exists f :: f in listing && x == Join(dirPath, f)
  {
    var files := RegularFiles(dirPath, listing, regular);
    var r := Sort(files);
    assert forall x :: x in r <==> x in files by {
      forall x ensures x in r <==> x in files {
        assert x in r <==> x in multiset(r);
        assert x in files <==> x in multiset(files);
      }
    }
    r
  }

  lemma {:induction false} RegularFilesDistinct(dirPath: Path, listing: seq<string>, regular: set<Path>)
    requires Distinct(listing) && forall f :: f in listing ==> IsName(f)
    ensures Distinct(RegularFiles(dirPath, listing, regular))
  {
    if listing != [] {
      var p := Join(dirPath, listing[0]);
      var rest := RegularFiles(dirPath, listing[1..], regular);
      assert Distinct(listing[1..]) by {
        forall i, j | 0 <= i < j < |listing[1..]| ensures listing[1..][i] != listing[1..][j] {
          assert listing[1..][i] == listing[i + 1] && listing[1..][j] == listing[j + 1];
        }
      }
      RegularFilesDistinct(dirPath, listing[1..], regular);
      if p in rest {
        var f :| f in listing[1..] && p == Join(dirPath, f);
        JoinInjective(dirPath, listing[0], f);
      }
    }
  }

  lemma {:induction false} DistinctCount(s: seq<string>, x: string)
    requires Distinct(s)
    ensures multiset(s)[x] <= 1
  {
    if s != [] {
      assert s == [s[0]] + s[1..];
      assert Distinct(s[1..]) by {
        forall i, j | 0 <= i < j < |s[1..]| ensures s[1..][i] != s[1..][j] {
          assert s[1..][i] == s[i + 1] && s[1..][j] == s[j + 1];
        }
      }
      DistinctCount(s[1..], x);
      if x == s[0] {
        assert x !in s[1..];
      }
    }
  }

  /** A permutation of a list without duplicates has none either. */
  lemma DistinctPermutation(a: seq<string>, b: seq<string>)
    requires Distinct(a) && multiset(a) == multiset(b)
    ensures Distinct(b)
  {
    forall i, j | 0 <= i < j < |b| ensures b[i] != b[j] {
      if b[i] == b[j] {
        var x := b[i];
        assert b == b[..j] + [b[j]] + b[j + 1..];
        assert x in b[..j];
        assert multiset(b)[x] == multiset(b[..j])[x] + 1 + multiset(b[j + 1..])[x];
        DistinctCount(a, x);
        assert false;
      }
    }
  }

  /** For a listing of distinct entry names (what os.listdir returns), the file list has no
      duplicates, is in strictly ascending order, and holds only direct children of dirPath. */
  lemma FileListWellFormed(dirPath: Path, listing: seq<string>, regular: set<Path>)
    requires Distinct(listing) && forall f :: f in listing ==> IsName(f)
    ensures var r := GetFileList(dirPath, listing, regular);
      Distinct(r) &&
      (forall i, j :: 0 <= i < j < |r| ==> LexLeq(r[i], r[j]) && r[i] != r[j]) &&
      (forall x :: x in r ==> IsChildOf(x, dirPath))
  {
    var files := RegularFiles(dirPath, listing, regular);
    RegularFilesDistinct(dirPath, listing, regular);
    DistinctPermutation(files, Sort(files));
    var r := GetFileList(dirPath, listing, regular);
    forall x | x in r ensures IsChildOf(x, dirPath) {
      var f :| f in listing && x == Join(dirPath, f);
      JoinIsChild(dirPath, f);
    }
  }
}
