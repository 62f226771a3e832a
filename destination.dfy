/**
 * The destination directory tree and Path.mkdir(parents=True, exist_ok=True)
 * on it, as the structure replicator uses them.
 *
 * Paths are relative to the destination root and given as their components;
 * the empty path is the destination root itself (the relative path "."). The
 * filesystem is the set of directories that exist. Which creations the
 * operating system refuses (permissions, an invalid name, a full disk) is not
 * visible to the program, so it is a parameter: the set `denied`.
 */
module Destination {

  /** A path below the destination root, as its components; [] is the root. */
  type RelPath = seq<string>

  /** A directory exists only if all of its ancestors exist. */
  predicate PrefixClosed(fs: set<RelPath>)
  {
    forall p, j :: p in fs && 0 <= j <= |p| ==> p[..j] in fs
  }

  /** The destination root exists (the log file is opened in it) and the set is a tree. */
  predicate FsValid(fs: set<RelPath>)
  {
    [] in fs && PrefixClosed(fs)
  }

  /**
   * None of the first j ancestors of t (t[..1] up to t[..j]) is missing and
   * refused: creating them one after the other meets no failure.
   */
  predicate ClearUpTo(fs: set<RelPath>, denied: set<RelPath>, t: RelPath, j: nat)
    requires j <= |t|
  {
    forall m :: 0 < m <= j ==> t[..m] in fs || t[..m] !in denied
  }

  /** The ancestors of t (t included) that mkdir with parents reaches: those below the first refusal. */
  function Created(fs: set<RelPath>, denied: set<RelPath>, t: RelPath): set<RelPath>
  {
    set j | 0 <= j <= |t| && ClearUpTo(fs, denied, t, j) :: t[..j]
  }

  /** The outcome of one mkdir call: whether it raised, and the directories that exist afterwards. */
  datatype MkdirResult = MkdirResult(ok: bool, fs: set<RelPath>)

  /**
   * target.mkdir(parents=True, exist_ok=True): an existing directory is a
   * success and changes nothing; otherwise the missing parent is created
   * first (recursively) and then the target itself. A refusal anywhere raises,
   * leaving in place the ancestors already created.
   */
  function MakeDirs(fs: set<RelPath>, denied: set<RelPath>, target: RelPath): (r: MkdirResult)
    requires FsValid(fs)
    ensures r.ok == ClearUpTo(fs, denied, target, |target|)
    ensures r.fs == fs + Created(fs, denied, target)
    decreases |target|
  {
    if target in fs then
      PresentCreatesNothing(fs, denied, target);
      MkdirResult(true, fs)
    else
      var up := MakeDirs(fs, denied, target[..|target| - 1]);
      CreatedExtends(fs, denied, target);
      if !up.ok || target in denied then MkdirResult(false, up.fs)
      else MkdirResult(true, up.fs + {target})
  }

  lemma PresentCreatesNothing(fs: set<RelPath>, denied: set<RelPath>, target: RelPath)
    requires FsValid(fs) && target in fs
    ensures ClearUpTo(fs, denied, target, |target|)
    ensures Created(fs, denied, target) <= fs
  {
  }

  lemma CreatedExtends(fs: set<RelPath>, denied: set<RelPath>, target: RelPath)
    requires FsValid(fs) && target !in fs
    ensures target != []
    ensures ClearUpTo(fs, denied, target, |target|)
            == (ClearUpTo(fs, denied, target[..|target| - 1], |target| - 1) && target !in denied)
    ensures Created(fs, denied, target)
            == Created(fs, denied, target[..|target| - 1])
               + (if ClearUpTo(fs, denied, target, |target|) then {target} else {})
  {
    var n := |target|;
    var parent := target[..n - 1];
    assert target[..n] == target;
    forall j | 0 <= j <= n - 1
      ensures ClearUpTo(fs, denied, target, j) == ClearUpTo(fs, denied, parent, j)
      ensures target[..j] == parent[..j]
    {
      assert forall m :: 0 < m <= j ==> target[..m] == parent[..m];
    }
    var lhs := Created(fs, denied, target);
    var rhs := Created(fs, denied, parent) + (if ClearUpTo(fs, denied, target, n) then {target} else {});
    forall q | q in lhs ensures q in rhs {
      var j :| 0 <= j <= n && ClearUpTo(fs, denied, target, j) && q == target[..j];
      if j < n {
        assert q == parent[..j];
      }
    }
    forall q | q in rhs ensures q in lhs {
      if q in Created(fs, denied, parent) {
        var j :| 0 <= j <= n - 1 && ClearUpTo(fs, denied, parent, j) && q == parent[..j];
        assert q == target[..j];
      } else {
        assert q == target[..n];
      }
    }
  }

  /**
   * What one mkdir call does to the destination: the new set is still a tree
   * (every created directory has its ancestors), the call succeeds exactly
   * when the target exists afterwards, nothing that existed disappears, and
   * every added directory is an ancestor of the target (or the target) that
   * the destination does not refuse.
   */
  lemma MakeDirsEffect(fs: set<RelPath>, denied: set<RelPath>, target: RelPath)
    requires FsValid(fs)
    ensures FsValid(MakeDirs(fs, denied, target).fs)
    ensures MakeDirs(fs, denied, target).ok <==> target in MakeDirs(fs, denied, target).fs
    ensures fs <= MakeDirs(fs, denied, target).fs
    ensures forall q :: q in MakeDirs(fs, denied, target).fs - fs ==> q <= target && q !in denied
    ensures target in fs ==> MakeDirs(fs, denied, target) == MkdirResult(true, fs)
  {
    var r := MakeDirs(fs, denied, target);
    var made := Created(fs, denied, target);
    forall q, i | q in r.fs && 0 <= i <= |q| ensures q[..i] in r.fs {
      if q !in fs {
        var j :| 0 <= j <= |target| && ClearUpTo(fs, denied, target, j) && q == target[..j];
        assert q[..i] == target[..i];
        assert ClearUpTo(fs, denied, target, i);
      }
    }
    forall q | q in r.fs - fs ensures q <= target && q !in denied {
      var j :| 0 <= j <= |target| && ClearUpTo(fs, denied, target, j) && q == target[..j];
      assert j > 0;
    }
    if target in r.fs && target !in fs {
      var j :| 0 <= j <= |target| && ClearUpTo(fs, denied, target, j) && target == target[..j];
      assert j == |target|;
    }
    assert target[..|target|] == target;
  }
}
