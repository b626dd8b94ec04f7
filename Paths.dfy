/** POSIX path strings as Python's os.path builds and takes them apart: join of two parts and
    basename. Paths are compared as exact strings; nothing is normalised. */
module Paths {

  type Path = string

  /** An entry name os.listdir can return: one non-empty component, never "." or "..". */
  predicate IsName(s: string) {
    s != [] && '/' !in s && s != "." && s != ".."
  }

  /** os.path.join(a, b) on POSIX: an absolute b replaces a; otherwise a separator is put
      between them unless a is empty or already ends with one. */
  function Join(a: Path, b: string): (p: Path)
  {
    if |b| > 0 && b[0] == '/' then b
    else if a == [] || a[|a| - 1] == '/' then a + b
    else a + "/" + b
  }

  /** os.path.basename(p): everything after the last '/'. */
  function Basename(p: Path): (b: string)
  {
    if p == [] || p[|p| - 1] == '/' then []
    else Basename(p[..|p| - 1]) + [p[|p| - 1]]
  }

  lemma {:induction false} BasenameAfterSeparator(x: Path, name: string)
    requires x == [] || x[|x| - 1] == '/'
    requires '/' !in name
    ensures Basename(x + name) == name
  {
    if name == [] {
      assert x + name == x;
    } else {
      var init := name[..|name| - 1];
      assert (x + name)[..|x + name| - 1] == x + init;
      BasenameAfterSeparator(x, init);
      assert init + [name[|name| - 1]] == name;
    }
  }

  /** The basename of a child path is the name it was joined with. */
  lemma BasenameOfJoin(dir: Path, name: string)
    requires IsName(name)
    ensures Basename(Join(dir, name)) == name
  {
    if dir == [] || dir[|dir| - 1] == '/' {
      BasenameAfterSeparator(dir, name);
    } else {
      assert dir + "/" + name == (dir + "/") + name;
      BasenameAfterSeparator(dir + "/", name);
    }
  }

  /** Within one directory, different names give different paths. */
  lemma JoinInjective(dir: Path, n1: string, n2: string)
    requires IsName(n1) && IsName(n2)
    ensures Join(dir, n1) == Join(dir, n2) <==> n1 == n2
  {
    BasenameOfJoin(dir, n1);
    BasenameOfJoin(dir, n2);
  }

  /** p is a direct child of dir: p is dir joined with its own basename, an entry name. */
  predicate IsChildOf(p: Path, dir: Path) {
    IsName(Basename(p)) && p == Join(dir, Basename(p))
  }

  lemma JoinIsChild(dir: Path, name: string)
    requires IsName(name)
    ensures IsChildOf(Join(dir, name), dir)
  {
    BasenameOfJoin(dir, name);
  }
}
