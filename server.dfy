/**
 * The server's file handlers as step-by-step operations on the one piece of
 * shared state they touch, the disk, held by a Workspace object. Each handler
 * runs as one atomic step; each is proved to agree with its description in
 * Handlers, and to keep the disk well-formed.
 *
 * The functions of Handlers and FileTree are the specification; the methods
 * here carry it out step by step, and each method's ensures ties it to its
 * function.
 */
module Server {
  import opened Paths
  import opened PathGuard
  import opened Store
  import opened FileTree
  import opened Handlers

  class Workspace {
    const cfg: Config
    var fs: Disk

    ghost predicate Valid()
      reads this
    {
      Canonical(cfg.root) && WellFormed(fs)
    }

    constructor (cfg: Config, fs: Disk)
      requires Canonical(cfg.root) && WellFormed(fs)
      ensures Valid() && this.cfg == cfg && this.fs == fs
    {
      this.cfg := cfg;
      this.fs := fs;
    }

    /** The `file:change` socket event. */
    method OnFileChange(rel: Option<string>, content: string) returns (outcome: ChangeOutcome)
      requires Valid()
      modifies this
      ensures Valid()
      ensures (outcome, fs) == FileChange(cfg, old(fs), rel, content)
    {
      FileChangeEffect(cfg, fs, rel, content);
      if rel.None? {
        return WriteError;
      }
      var fullPath := Join(cfg.root, rel.value);
      if !Admits(cfg.guard, cfg.root, fullPath) {
        return Unauthorized;
      }
      var stat := Stat(fs, fullPath);
      if stat == Some(Dir) {
        return IsDirectory;
      }
      var written := WriteFile(fs, fullPath, content);
      if written.None? {
        return WriteError;
      }
      fs := written.value;
      outcome := Written;
    }

    /** GET /files/content: reads the disk and changes nothing. */
    method GetContent(rel: Option<string>) returns (reply: Reply)
      requires Valid()
      ensures reply == ContentReply(cfg, fs, rel)
    {
      if rel.None? {
        return ErrorBody(404, NotFound);
      }
      var fullPath := Join(cfg.root, rel.value);
      if !Admits(cfg.guard, cfg.root, fullPath) {
        return ErrorBody(400, InvalidPath);
      }
      var content := ReadFile(fs, fullPath);
      if content.None? {
        return ErrorBody(404, NotFound);
      }
      reply := ContentBody(content.value);
    }

    /** DELETE /files. */
    method Delete(rel: Option<string>) returns (reply: Reply)
      requires Valid()
      modifies this
      ensures Valid()
      ensures (reply, fs) == DeleteReply(cfg, old(fs), rel)
    {
      if rel.None? {
        return ErrorBody(500, DeletionFailed);
      }
      var fullPath := Join(cfg.root, rel.value);
      if !Admits(cfg.guard, cfg.root, fullPath) {
        return ErrorBody(400, InvalidPath);
      }
      var removed := Unlink(fs, fullPath);
      if removed.None? {
        return ErrorBody(500, DeletionFailed);
      }
      UnlinkKeepsWellFormed(fs, fullPath);
      fs := removed.value;
      reply := MessageBody(DeletedMessage);
    }

    /** GET /files: `generateFileTree` over the root; a root that cannot be listed is a 500. */
    method GetFiles() returns (reply: Reply)
      requires Valid()
      ensures reply == FilesReply(cfg, fs)
    {
      if ReadDir(fs, cfg.root).None? {
        return ErrorBody(500, TreeFailed);
      }
      var tree := BuildTree(cfg.root);
      reply := TreeBody(tree);
    }

    /**
     * `buildTree`: lists the directory, then assigns under each entry name what
     * EntryAt finds there; on a plain object the assignment under `__proto__`
     * creates no key. The entries are visited in whatever order the listing
     * gives; the result is the snapshot of the directory in every order, so
     * building twice over an unchanged disk gives equal trees.
     */
    method BuildTree(dir: Path) returns (tree: Tree)
      requires Valid() && dir in fs && fs[dir] == Dir
      ensures tree == Snapshot(fs, dir, cfg.kind)
      decreases |Below(fs, dir)|, 1
    {
      var files := ReadDir(fs, dir).value;
      tree := map[];
      var pending := files;
      while pending != {}
        invariant pending <= files
        invariant tree.Keys == files - pending - Hidden(cfg.kind)
        invariant forall n :: n in tree ==> tree[n] == EntryOf(fs, dir, n, cfg.kind)
        decreases |pending|
      {
        var file :| file in pending;
        var entry := EntryAt(dir, file);
        if file !in Hidden(cfg.kind) {
          tree := tree[file := entry];
        }
        pending := pending - {file};
      }
      SnapshotOfEntries(fs, dir, cfg.kind, tree);
    }

    /** One step of `buildTree`: stat the entry, `null` for a file, the nested tree for a directory. */
    method EntryAt(dir: Path, file: string) returns (entry: Entry)
      requires Valid() && dir in fs && fs[dir] == Dir && file in Children(fs, dir)
      ensures entry == EntryOf(fs, dir, file, cfg.kind)
      decreases |Below(fs, dir)|, 0
    {
      ChildrenExact(fs, dir, file);
      var stat := Stat(fs, dir + [file]);
      if stat == Some(Dir) {
        BelowShrinks(fs, dir, file);
        var subtree := BuildTree(dir + [file]);
        entry := Object(subtree);
      } else {
        entry := Null;
      }
    }
  }
}
