/**
 * The tree `generateFileTree` returns for GET /files: a JSON object with one key
 * per directory entry, `null` for a file and a nested object for a directory.
 */
module FileTree {
  import opened Paths
  import opened Store

  /** A value in the tree: JSON `null` for a file, a nested object for a directory. */
  datatype Entry = Null | Object(entries: map<string, Entry>)

  type Tree = map<string, Entry>

  /** The entries strictly below dir; the recursion over directories shrinks this set. */
  function Below(fs: Disk, dir: Path): set<Path>
  {
    set p | p in fs && |dir| < |p| && p[..|dir|] == dir
  }

  lemma BelowShrinks(fs: Disk, dir: Path, n: string)
    requires dir + [n] in fs
    ensures |Below(fs, dir + [n])| < |Below(fs, dir)|
  {
    var c := dir + [n];
    forall p | p in Below(fs, c) ensures p in Below(fs, dir) {
      assert p[..|dir|] == p[..|c|][..|dir|];
    }
    assert c[..|dir|] == dir;
    assert c in Below(fs, dir) - Below(fs, c);
    assert Below(fs, dir) == Below(fs, c) + (Below(fs, dir) - Below(fs, c));
  }

  /**
   * The object buildTree stores entries into. As written it is a plain `{}`
   * (`PlainObject`): assigning under the name `__proto__` runs the setter that
   * object inherits, which replaces its prototype and creates no key, so the JSON
   * reply has no such key and a directory of that name takes its whole subtree
   * with it. `NullPrototype` is an object without a prototype
   * (`Object.create(null)`), where every name becomes a key.
   */
  datatype ObjectKind = PlainObject | NullPrototype

  const ProtoKey: string := "__proto__"

  /** The entry names an assignment on this kind of object does not turn into keys. */
  function Hidden(kind: ObjectKind): set<string>
  {
    if kind == PlainObject then {ProtoKey} else {}
  }

  /** The snapshot of directory dir: every entry name that becomes a key, with its value. */
  function Snapshot(fs: Disk, dir: Path, kind: ObjectKind): Tree
    decreases |Below(fs, dir)|, 1
  {
    map n | n in Children(fs, dir) - Hidden(kind) :: EntryOf(fs, dir, n, kind)
  }

  /** What buildTree assigns under the entry name n of dir. */
  function EntryOf(fs: Disk, dir: Path, n: string, kind: ObjectKind): Entry
    requires n in Children(fs, dir)
    decreases |Below(fs, dir)|, 0
  {
    ChildrenExact(fs, dir, n);
    BelowShrinks(fs, dir, n);
    if fs[dir + [n]] == Dir then Object(Snapshot(fs, dir + [n], kind)) else Null
  }

  /** A tree that holds, under each entry name of dir that becomes a key, what buildTree assigns there, is the snapshot of dir. */
  lemma SnapshotOfEntries(fs: Disk, dir: Path, kind: ObjectKind, tree: Tree)
    requires tree.Keys == Children(fs, dir) - Hidden(kind)
    requires forall n :: n in tree ==> tree[n] == EntryOf(fs, dir, n, kind)
    ensures tree == Snapshot(fs, dir, kind)
  {
  }

  /** Follows the names of rel through nested objects. */
  function Lookup(t: Tree, rel: Path): Option<Entry>
    requires |rel| > 0
    decreases |rel|
  {
    if rel[0] !in t then None
    else if |rel| == 1 then Some(t[rel[0]])
    else match t[rel[0]]
      case Null => None
      case Object(sub) => Lookup(sub, rel[1..])
  }

  /** No name along rel is one the object kind hides. */
  predicate Visible(kind: ObjectKind, rel: Path) {
    forall i :: 0 <= i < |rel| ==> rel[i] !in Hidden(kind)
  }

  /** A path is visible when its first name is and the rest of it is. */
  lemma VisibleStep(kind: ObjectKind, rel: Path)
    requires |rel| > 0
    ensures Visible(kind, rel) <==> rel[0] !in Hidden(kind) && Visible(kind, rel[1..])
  {
    if rel[0] !in Hidden(kind) && Visible(kind, rel[1..]) {
      forall i | 0 <= i < |rel| ensures rel[i] !in Hidden(kind) {
        if i > 0 {
          assert rel[i] == rel[1..][i - 1];
        }
      }
    }
  }

  // ---------------------------------------------------------------------------

  /**
   * The snapshot of a directory is faithful to the disk up to hidden names: a
   * non-empty path below it is found in the tree exactly when it is on the disk
   * and no name along it is hidden, and it is found as `null` exactly when it is,
   * in addition, a file there.
   */
  lemma {:induction false} SnapshotFaithful(fs: Disk, dir: Path, kind: ObjectKind, rel: Path)
    requires WellFormed(fs) && dir in fs && fs[dir] == Dir
    requires |rel| > 0
    ensures Lookup(Snapshot(fs, dir, kind), rel).Some? <==> dir + rel in fs && Visible(kind, rel)
    ensures Lookup(Snapshot(fs, dir, kind), rel) == Some(Null) <==> dir + rel in fs && fs[dir + rel].File? && Visible(kind, rel)
    decreases |rel|
  {
    var n := rel[0];
    var child := dir + [n];
    ChildrenExact(fs, dir, n);
    var t := Snapshot(fs, dir, kind);
    if n in Hidden(kind) {
      assert n !in t;
      VisibleStep(kind, rel);
    } else if |rel| == 1 {
      assert dir + rel == child;
    } else {
      assert dir + rel == child + rel[1..];
      VisibleStep(kind, rel);
      if child in fs {
        assert t[n] == EntryOf(fs, dir, n, kind);
        if fs[child] == Dir {
          assert t[n] == Object(Snapshot(fs, child, kind));
          SnapshotFaithful(fs, child, kind, rel[1..]);
        } else {
          assert t[n] == Null;
          if dir + rel in fs {
            AncestorsAreDirs(fs, dir + rel, |child|);
          }
        }
      } else if dir + rel in fs {
        AncestorsAreDirs(fs, dir + rel, |child|);
      }
    }
  }

  /**
   * The tree has one key per directory entry, except that a plain object has none
   * for `__proto__`; a directory with nothing below it gives `{}`.
   */
  lemma SnapshotKeys(fs: Disk, dir: Path, kind: ObjectKind)
    ensures kind == NullPrototype ==> Snapshot(fs, dir, kind).Keys == Children(fs, dir)
    ensures kind == PlainObject ==> Snapshot(fs, dir, kind).Keys == Children(fs, dir) - {ProtoKey}
    ensures (forall p :: p in fs ==> !(|dir| < |p| && p[..|dir|] == dir)) ==> Snapshot(fs, dir, kind) == map[]
  {
    if forall p :: p in fs ==> !(|dir| < |p| && p[..|dir|] == dir) {
      forall n | n in Children(fs, dir) ensures false {
        ChildrenExact(fs, dir, n);
      }
    }
  }

  /**
   * An entry named `__proto__` is on the disk and listed by readdir, yet the tree
   * built into plain objects has no key for it.
   */
  lemma ProtoEntryHidden(fs: Disk, dir: Path)
    requires dir + [ProtoKey] in fs
    ensures ProtoKey in Children(fs, dir)
    ensures ProtoKey !in Snapshot(fs, dir, PlainObject)
  {
    ChildrenExact(fs, dir, ProtoKey);
  }

  /**
   * Built into objects without a prototype, the tree is faithful to the disk with
   * no exception: a non-empty path below the directory is found exactly when it is
   * on the disk, as `null` exactly when it is a file.
   */
  lemma NullPrototypeFaithful(fs: Disk, dir: Path, rel: Path)
    requires WellFormed(fs) && dir in fs && fs[dir] == Dir
    requires |rel| > 0
    ensures Lookup(Snapshot(fs, dir, NullPrototype), rel).Some? <==> dir + rel in fs
    ensures Lookup(Snapshot(fs, dir, NullPrototype), rel) == Some(Null) <==> dir + rel in fs && fs[dir + rel].File?
  {
    SnapshotFaithful(fs, dir, NullPrototype, rel);
  }
}
