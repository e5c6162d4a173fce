/**
 * The disk as the server sees it through `fs/promises`: a finite map from
 * normalised absolute paths to files and directories, and the five calls the
 * handlers make on it (stat, readFile, writeFile, unlink, readdir).
 */
module Store {
  import opened Paths

  datatype Option<T> = None | Some(value: T)

  datatype Node = File(content: string) | Dir

  type Disk = map<Path, Node>

  function Parent(p: Path): Path
    requires |p| > 0
  {
    p[..|p| - 1]
  }

  const Nul: char := '\0'

  /**
   * Node's fs layer refuses a path string holding a NUL character before any
   * system call (ERR_INVALID_ARG_VALUE); no name on a disk holds one.
   */
  predicate NulFree(p: Path) {
    forall i :: 0 <= i < |p| ==> Nul !in p[i]
  }

  /**
   * A file system: the root "/" is a directory, every other entry is a canonical,
   * NUL-free path whose parent is a directory entry.
   */
  predicate WellFormed(fs: Disk) {
    && [] in fs && fs[[]] == Dir
    && forall p :: p in fs && p != [] ==> Canonical(p) && NulFree(p) && Parent(p) in fs && fs[Parent(p)] == Dir
  }

  /** `fs.stat`: the entry, or None where Node throws (a NUL in the path, ENOENT, ENOTDIR). */
  function Stat(fs: Disk, p: Path): Option<Node>
  {
    if NulFree(p) && p in fs then Some(fs[p]) else None
  }

  /** `fs.readFile`: the content of a file; a NUL in the path, a directory (EISDIR) or a missing entry throws. */
  function ReadFile(fs: Disk, p: Path): Option<string>
  {
    if NulFree(p) && p in fs && fs[p].File? then Some(fs[p].content) else None
  }

  /**
   * `fs.writeFile`: creates or truncates a file. It throws when the path holds a
   * NUL, when the parent is missing or not a directory (ENOENT, ENOTDIR) and when
   * the target is a directory (EISDIR); the root "/" is a directory.
   */
  function WriteFile(fs: Disk, p: Path, content: string): Option<Disk>
  {
    if NulFree(p) && p != [] && Parent(p) in fs && fs[Parent(p)] == Dir && !(p in fs && fs[p] == Dir)
    then Some(fs[p := File(content)])
    else None
  }

  /** `fs.unlink`: removes a file; a NUL in the path, a missing entry (ENOENT) or a directory (EISDIR, EPERM) throws. */
  function Unlink(fs: Disk, p: Path): Option<Disk>
  {
    if NulFree(p) && p in fs && fs[p].File? then Some(fs - {p}) else None
  }

  /** The names of the entries directly inside dir. */
  function Children(fs: Disk, dir: Path): set<string>
  {
    set p | p in fs && |p| == |dir| + 1 && p[..|dir|] == dir :: p[|dir|]
  }

  /** `fs.readdir`: the entry names of a directory; a NUL in the path, a file or a missing entry throws. */
  function ReadDir(fs: Disk, dir: Path): Option<set<string>>
  {
    if NulFree(dir) && dir in fs && fs[dir] == Dir then Some(Children(fs, dir)) else None
  }

  // ---------------------------------------------------------------------------

  /** The entry names readdir reports are exactly the names n with dir + [n] on the disk. */
  lemma ChildrenExact(fs: Disk, dir: Path, n: string)
    ensures n in Children(fs, dir) <==> dir + [n] in fs
  {
    if n in Children(fs, dir) {
      var p :| p in fs && |p| == |dir| + 1 && p[..|dir|] == dir && p[|dir|] == n;
      assert p == dir + [n];
    }
    if dir + [n] in fs {
      assert (dir + [n])[..|dir|] == dir;
    }
  }

  /** Every entry of a well-formed disk is NUL-free, so every fs call accepts its path. */
  lemma EntriesNulFree(fs: Disk, p: Path)
    requires WellFormed(fs) && p in fs
    ensures NulFree(p)
  {
  }

  /**
   * Writing a new name into a directory of a well-formed disk succeeds when the
   * name holds no NUL and is not already a directory, and keeps the disk well-formed.
   */
  lemma WriteChild(fs: Disk, dir: Path, n: string, content: string)
    requires WellFormed(fs) && dir in fs && fs[dir] == Dir
    requires Canonical(dir + [n]) && Nul !in n
    requires !(dir + [n] in fs && fs[dir + [n]] == Dir)
    ensures WriteFile(fs, dir + [n], content) == Some(fs[dir + [n] := File(content)])
    ensures WellFormed(fs[dir + [n] := File(content)])
  {
    var t := dir + [n];
    EntriesNulFree(fs, dir);
    forall i | 0 <= i < |t| ensures Nul !in t[i] {
      if i < |dir| {
        assert t[i] == dir[i];
      }
    }
    assert Parent(t) == dir;
    WriteKeepsWellFormed(fs, t, content);
  }

  /** Every entry's ancestors are directories on a well-formed disk. */
  lemma {:induction false} AncestorsAreDirs(fs: Disk, p: Path, k: nat)
    requires WellFormed(fs) && p in fs && k < |p|
    ensures p[..k] in fs && fs[p[..k]] == Dir
    decreases |p| - k
  {
    if k == |p| - 1 {
      assert p[..k] == Parent(p);
    } else {
      AncestorsAreDirs(fs, p, k + 1);
      var q := p[..k + 1];
      assert q != [] && Parent(q) == p[..k];
    }
  }

  /** Writing a file keeps the disk well-formed, provided the path is canonical. */
  lemma WriteKeepsWellFormed(fs: Disk, p: Path, content: string)
    requires WellFormed(fs) && Canonical(p)
    requires WriteFile(fs, p, content).Some?
    ensures WellFormed(WriteFile(fs, p, content).value)
  {
    var fs' := fs[p := File(content)];
    forall q | q in fs' && q != []
      ensures Canonical(q) && Parent(q) in fs' && fs'[Parent(q)] == Dir
    {
      if q != p {
        assert q in fs;
        assert Parent(q) != p;
      }
    }
  }

  /** Removing a file keeps the disk well-formed: a file is nobody's parent. */
  lemma UnlinkKeepsWellFormed(fs: Disk, p: Path)
    requires WellFormed(fs)
    requires Unlink(fs, p).Some?
    ensures WellFormed(Unlink(fs, p).value)
  {
    var fs' := fs - {p};
    forall q | q in fs' && q != []
      ensures Canonical(q) && Parent(q) in fs' && fs'[Parent(q)] == Dir
    {
      assert q in fs;
    }
  }
}
