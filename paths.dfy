/** File-system paths as the collectors use them: `Path.parent`, joining a
    file name onto a directory, and the directories of a list of paths.
    Paths are taken in normal form (no repeated or trailing `/`). */
module Paths {
  import opened Text

  /** The index of the last `/` in `p`, or -1 when there is none. */
  function LastSlash(p: string): (i: int)
    ensures -1 <= i < |p|
    ensures i >= 0 ==> p[i] == '/'
    ensures forall k :: i < k < |p| ==> p[k] != '/'
  {
    if p == [] then -1 else if p[|p| - 1] == '/' then |p| - 1 else LastSlash(p[..|p| - 1])
  }

  /** `str(Path(p).parent)`: everything before the last `/`, the root for a
      top-level absolute path, and `.` for a bare file name. */
  function Parent(p: string): string {
    var i := LastSlash(p);
    if i < 0 then "." else if i == 0 then "/" else p[..i]
  }

  /** `str(Path(dir) / name)` */
  function Child(dir: string, name: string): string {
    if dir == "." then name else if dir == "/" then "/" + name else dir + "/" + name
  }

  /** The `.env` file next to the files of `dir`. */
  function EnvFile(dir: string): string {
    Child(dir, ".env")
  }

  /** A file placed in a directory has that directory as its parent. */
  lemma ParentOfChild(dir: string, name: string)
    requires dir != [] && name != [] && '/' !in name
    requires dir == "/" || dir[|dir| - 1] != '/'
    ensures Parent(Child(dir, name)) == dir
  {
    var c := Child(dir, name);
    var i := LastSlash(c);
    if dir == "." {
      assert c == name;
    } else if dir == "/" {
      assert c == "/" + name;
      assert forall k :: 0 < k < |c| ==> c[k] == name[k - 1];
      assert c[0] == '/';
    } else {
      assert c == dir + "/" + name;
      assert forall k :: |dir| < k < |c| ==> c[k] == name[k - |dir| - 1];
      assert c[|dir|] == '/';
      assert c[..|dir|] == dir;
    }
  }

  /** The directories holding the given paths. */
  function Dirs(ps: seq<string>): set<string> {
    set i | 0 <= i < |ps| :: Parent(ps[i])
  }

  lemma DirsSnoc(ps: seq<string>, p: string)
    ensures Dirs(ps + [p]) == Dirs(ps) + {Parent(p)}
  {
    var qs := ps + [p];
    assert forall i :: 0 <= i < |ps| ==> qs[i] == ps[i];
    assert qs[|ps|] == p;
    forall d | d in Dirs(qs)
      ensures d in Dirs(ps) + {Parent(p)}
    {
      var i :| 0 <= i < |qs| && Parent(qs[i]) == d;
      if i < |ps| {
        assert Parent(ps[i]) == d;
      }
    }
  }

  /** A path adds a directory exactly when its own is new. */
  lemma DirsCount(ps: seq<string>, p: string)
    ensures |Dirs(ps + [p])| == |Dirs(ps)| + if Parent(p) in Dirs(ps) then 0 else 1
  {
    DirsSnoc(ps, p);
  }
}
