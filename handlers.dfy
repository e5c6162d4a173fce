/**
 * The file handlers of the server as single atomic steps on the disk:
 * the socket event `file:change`, GET /files/content, DELETE /files and GET /files.
 *
 * The client's path is an `Option<string>`: None stands for a payload whose
 * `path` is not a string, for which `path.join` throws and the handler falls
 * into its catch branch.
 */
module Handlers {
  import opened Paths
  import opened PathGuard
  import opened Store
  import opened FileTree

  /**
   * The workspace root (`userDir`, a parameter here), the guard in force, and the
   * kind of object the tree of GET /files is built into.
   */
  datatype Config = Config(root: Path, guard: Guard, kind: ObjectKind)

  /** Which branch of the `file:change` handler was taken; the client is told none of them. */
  datatype ChangeOutcome = Written | Unauthorized | IsDirectory | WriteError

  /** The JSON body of an HTTP reply, with its status code when it is an error. */
  datatype Reply =
    | ContentBody(content: string)
    | MessageBody(message: string)
    | TreeBody(tree: Tree)
    | ErrorBody(status: nat, error: string)

  const InvalidPath: string := "Invalid file path"
  const NotFound: string := "File not found or inaccessible"
  const DeletionFailed: string := "File deletion failed"
  const TreeFailed: string := "Failed to generate file tree"
  const DeletedMessage: string := "File deleted successfully"

  /** The path a handler would touch for the client path rel. */
  function Target(cfg: Config, rel: string): Path
  {
    Join(cfg.root, rel)
  }

  /** `file:change`: guard, then stat (a directory is refused), then writeFile. */
  function FileChange(cfg: Config, fs: Disk, rel: Option<string>, content: string): (ChangeOutcome, Disk)
  {
    if rel.None? then (WriteError, fs)
    else
      var full := Target(cfg, rel.value);
      if !Admits(cfg.guard, cfg.root, full) then (Unauthorized, fs)
      else if Stat(fs, full) == Some(Dir) then (IsDirectory, fs)
      else match WriteFile(fs, full, content)
        case Some(fs') => (Written, fs')
        case None => (WriteError, fs)
  }

  /** GET /files/content: guard (400), then readFile; every failure is a 404. */
  function ContentReply(cfg: Config, fs: Disk, rel: Option<string>): Reply
  {
    if rel.None? then ErrorBody(404, NotFound)
    else
      var full := Target(cfg, rel.value);
      if !Admits(cfg.guard, cfg.root, full) then ErrorBody(400, InvalidPath)
      else match ReadFile(fs, full)
        case Some(text) => ContentBody(text)
        case None => ErrorBody(404, NotFound)
  }

  /** DELETE /files: guard (400), then unlink; every failure is a 500. */
  function DeleteReply(cfg: Config, fs: Disk, rel: Option<string>): (Reply, Disk)
  {
    if rel.None? then (ErrorBody(500, DeletionFailed), fs)
    else
      var full := Target(cfg, rel.value);
      if !Admits(cfg.guard, cfg.root, full) then (ErrorBody(400, InvalidPath), fs)
      else match Unlink(fs, full)
        case Some(fs') => (MessageBody(DeletedMessage), fs')
        case None => (ErrorBody(500, DeletionFailed), fs)
  }

  /** GET /files: the snapshot of the root, or a 500 when the root cannot be listed. */
  function FilesReply(cfg: Config, fs: Disk): Reply
  {
    if ReadDir(fs, cfg.root).Some? then TreeBody(Snapshot(fs, cfg.root, cfg.kind))
    else ErrorBody(500, TreeFailed)
  }

  // ---------------------------------------------------------------------------
  // Properties of single requests.

  /**
   * A path the guard rejects is answered before the disk is consulted: the reply
   * is fixed whatever the disk holds, and the disk is unchanged.
   */
  lemma RejectedBeforeDiskAccess(cfg: Config, fs: Disk, rel: string, content: string)
    requires !Admits(cfg.guard, cfg.root, Target(cfg, rel))
    ensures FileChange(cfg, fs, Some(rel), content) == (Unauthorized, fs)
    ensures ContentReply(cfg, fs, Some(rel)) == ErrorBody(400, InvalidPath)
    ensures DeleteReply(cfg, fs, Some(rel)) == (ErrorBody(400, InvalidPath), fs)
  {
  }

  /** A `file:change` whose target is a directory writes nothing. */
  lemma DirectoryTargetRefused(cfg: Config, fs: Disk, rel: string, content: string)
    requires WellFormed(fs)
    requires Admits(cfg.guard, cfg.root, Target(cfg, rel))
    requires Target(cfg, rel) in fs && fs[Target(cfg, rel)] == Dir
    ensures FileChange(cfg, fs, Some(rel), content) == (IsDirectory, fs)
  {
  }

  /**
   * A `file:change` writes exactly when the path is admitted, holds no NUL, its
   * parent is a directory and it is not itself a directory; it then sets that one path to a
   * file holding the content, and otherwise leaves the disk as it was. Either way
   * the disk stays well-formed.
   */
  lemma FileChangeEffect(cfg: Config, fs: Disk, rel: Option<string>, content: string)
    requires Canonical(cfg.root) && WellFormed(fs)
    ensures var (outcome, fs') := FileChange(cfg, fs, rel, content);
      && (outcome == Written <==>
            rel.Some? && Admits(cfg.guard, cfg.root, Target(cfg, rel.value))
            && NulFree(Target(cfg, rel.value)) && Target(cfg, rel.value) != []
            && Parent(Target(cfg, rel.value)) in fs && fs[Parent(Target(cfg, rel.value))] == Dir
            && !(Target(cfg, rel.value) in fs && fs[Target(cfg, rel.value)] == Dir))
      && (outcome == Written ==> fs' == fs[Target(cfg, rel.value) := File(content)])
      && (outcome != Written ==> fs' == fs)
      && WellFormed(fs')
  {
    if rel.Some? {
      JoinCanonical(cfg.root, rel.value);
      if WriteFile(fs, Target(cfg, rel.value), content).Some? {
        WriteKeepsWellFormed(fs, Target(cfg, rel.value), content);
      }
    }
  }

  /** After a successful write of some content, reading the same client path returns exactly that content. */
  lemma WriteThenRead(cfg: Config, fs: Disk, rel: string, content: string)
    requires FileChange(cfg, fs, Some(rel), content).0 == Written
    ensures ContentReply(cfg, FileChange(cfg, fs, Some(rel), content).1, Some(rel)) == ContentBody(content)
  {
  }

  /**
   * GET /files/content returns the content exactly when the admitted path is a file
   * whose path holds no NUL; any other admitted path is a 404.
   */
  lemma ContentReplyCases(cfg: Config, fs: Disk, rel: string)
    requires Admits(cfg.guard, cfg.root, Target(cfg, rel))
    ensures ContentReply(cfg, fs, Some(rel)).ContentBody? <==>
      NulFree(Target(cfg, rel)) && Target(cfg, rel) in fs && fs[Target(cfg, rel)].File?
    ensures ContentReply(cfg, fs, Some(rel)).ContentBody? ==>
      fs[Target(cfg, rel)] == File(ContentReply(cfg, fs, Some(rel)).content)
    ensures !ContentReply(cfg, fs, Some(rel)).ContentBody? ==> ContentReply(cfg, fs, Some(rel)) == ErrorBody(404, NotFound)
  {
  }

  /**
   * DELETE /files removes exactly the admitted file and a later read of it is a 404;
   * a missing path or a directory is a 500 (never a 404) and changes nothing.
   * The disk stays well-formed.
   */
  lemma DeleteEffect(cfg: Config, fs: Disk, rel: string)
    requires WellFormed(fs)
    requires Admits(cfg.guard, cfg.root, Target(cfg, rel))
    ensures var full := Target(cfg, rel);
      var (reply, fs') := DeleteReply(cfg, fs, Some(rel));
      && (full in fs && fs[full].File? ==>
            reply == MessageBody(DeletedMessage) && fs' == fs - {full}
            && ContentReply(cfg, fs', Some(rel)) == ErrorBody(404, NotFound))
      && (!(full in fs && fs[full].File?) ==> reply == ErrorBody(500, DeletionFailed) && fs' == fs)
      && WellFormed(fs')
  {
    var full := Target(cfg, rel);
    if Unlink(fs, full).Some? {
      UnlinkKeepsWellFormed(fs, full);
    }
  }

  /** GET /files answers with the snapshot of the root exactly when the root is a directory whose path holds no NUL. */
  lemma FilesReplyCases(cfg: Config, fs: Disk)
    ensures FilesReply(cfg, fs).TreeBody? <==> NulFree(cfg.root) && cfg.root in fs && fs[cfg.root] == Dir
    ensures FilesReply(cfg, fs).TreeBody? ==> FilesReply(cfg, fs).tree == Snapshot(fs, cfg.root, cfg.kind)
    ensures !FilesReply(cfg, fs).TreeBody? ==> FilesReply(cfg, fs) == ErrorBody(500, TreeFailed)
  {
  }

  /**
   * An admitted client path holding a NUL is refused by every fs call: `file:change`
   * writes nothing, a read is a 404 and a delete is a 500, whatever the disk holds.
   */
  lemma NulPathRefused(cfg: Config, fs: Disk, rel: string, content: string)
    requires Admits(cfg.guard, cfg.root, Target(cfg, rel))
    requires !NulFree(Target(cfg, rel))
    ensures FileChange(cfg, fs, Some(rel), content) == (WriteError, fs)
    ensures ContentReply(cfg, fs, Some(rel)) == ErrorBody(404, NotFound)
    ensures DeleteReply(cfg, fs, Some(rel)) == (ErrorBody(500, DeletionFailed), fs)
  {
  }

  /** The client path `__proto__` names the entry `__proto__` of the root, and every guard admits it. */
  lemma ProtoKeyJoins(root: Path, guard: Guard)
    requires Canonical(root)
    ensures Join(root, ProtoKey) == root + [ProtoKey]
    ensures Admits(guard, root, root + [ProtoKey])
  {
    assert IsName(ProtoKey);
    SplitName(ProtoKey, "");
    var parts := Split(ProtoKey);
    assert parts == [ProtoKey];
    JoinIsResolve(root, ProtoKey);
    ResolveNames(root, parts);
    assert Join(root, ProtoKey) == root + [ProtoKey];
    assert forall i :: 0 <= i < |parts| ==> parts[i] != "..";
    NoParentSegmentAdmitted(guard, root, ProtoKey);
  }

  /**
   * A client can create a file named `__proto__` in the root, and readdir lists it,
   * yet the tree GET /files returns, built into plain objects, has no key for it;
   * built into objects without a prototype it has one.
   */
  lemma ProtoFileMissingFromTree(root: Path, guard: Guard, fs: Disk, content: string)
    requires Canonical(root) && WellFormed(fs) && root in fs && fs[root] == Dir
    requires !(root + [ProtoKey] in fs && fs[root + [ProtoKey]] == Dir)
    ensures var (outcome, fs') := FileChange(Config(root, guard, PlainObject), fs, Some(ProtoKey), content);
      && outcome == Written
      && fs' == fs[root + [ProtoKey] := File(content)]
      && ReadDir(fs', root).Some? && ProtoKey in ReadDir(fs', root).value
      && FilesReply(Config(root, guard, PlainObject), fs').TreeBody?
      && ProtoKey !in FilesReply(Config(root, guard, PlainObject), fs').tree
      && FilesReply(Config(root, guard, NullPrototype), fs').TreeBody?
      && ProtoKey in FilesReply(Config(root, guard, NullPrototype), fs').tree
  {
    var t := root + [ProtoKey];
    ProtoKeyJoins(root, guard);
    assert Canonical(t) by {
      forall i | 0 <= i < |t| ensures IsName(t[i]) {
        if i < |root| {
          assert t[i] == root[i];
        }
      }
    }
    WriteChild(fs, root, ProtoKey, content);
    var fs' := fs[t := File(content)];
    ChildrenExact(fs', root, ProtoKey);
    ProtoEntryHidden(fs', root);
    SnapshotKeys(fs', root, NullPrototype);
  }

  // ---------------------------------------------------------------------------
  // The sandbox, as written and corrected.

  /**
   * With the source's string test, a client can create a file outside the root:
   * "../<sibling>" reaches a sibling of the root whose name extends the root's
   * name, and `file:change` writes it whenever it is not a directory.
   */
  lemma AsWrittenWritesOutsideRoot(root: Path, kind: ObjectKind, fs: Disk, sibling: string, content: string)
    requires |root| > 0 && Canonical(root) && WellFormed(fs) && root in fs
    requires IsName(sibling) && Nul !in sibling && root[|root| - 1] < sibling
    requires var s := root[..|root| - 1] + [sibling]; !(s in fs && fs[s] == Dir)
    ensures var s := root[..|root| - 1] + [sibling];
      && !IsWithin(root, s)
      && FileChange(Config(root, AsWritten, kind), fs, Some(".." + [Sep] + sibling), content) == (Written, fs[s := File(content)])
      && FileChange(Config(root, Contained, kind), fs, Some(".." + [Sep] + sibling), content) == (Unauthorized, fs)
  {
    SiblingEscape(root, sibling);
    AncestorsAreDirs(fs, root, |root| - 1);
    var s := root[..|root| - 1] + [sibling];
    assert Parent(s) == root[..|root| - 1];
    EntriesNulFree(fs, root);
    assert NulFree(s) by {
      forall i | 0 <= i < |s| ensures Nul !in s[i] {
        if i < |root| - 1 {
          assert s[i] == root[i];
        }
      }
    }
  }

  /**
   * With the segment-wise guard, no file handler changes anything outside the
   * root: every path not within the root has the same entry before and after.
   */
  lemma ContainedConfines(root: Path, kind: ObjectKind, fs: Disk, rel: Option<string>, content: string, p: Path)
    requires Canonical(root)
    requires !IsWithin(root, p)
    ensures var fs' := FileChange(Config(root, Contained, kind), fs, rel, content).1;
      (p in fs' <==> p in fs) && (p in fs ==> fs'[p] == fs[p])
    ensures var fs' := DeleteReply(Config(root, Contained, kind), fs, rel).1;
      (p in fs' <==> p in fs) && (p in fs ==> fs'[p] == fs[p])
  {
    if rel.Some? {
      var full := Join(root, rel.value);
      if Admits(Contained, root, full) {
        assert p != full;
      }
    }
  }
}
