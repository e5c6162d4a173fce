# CodeYantra workspace server: sandboxed file handlers, tree snapshot and watcher events

The server exposes one directory, the workspace root (`userDir`), to browser
clients. Every file request names a path relative to the root. The server joins
that path to the root with Node's `path.join` and refuses the result unless it
starts with the root string. It then stats, reads, writes or unlinks the file.
`GET /files` returns a JSON tree of the root, with `null` for every file and a
nested object for every directory. A directory watcher turns additions, changes
and removals of files into `file:added`, `file:changed` and `file:deleted`
events, whose payload is the path relative to the root.

This project models that logic in Dafny, with the disk replaced by a finite map
from normalised absolute paths to `File(content) | Dir`:

- `paths.dfy` (module `Paths`): POSIX `path.join`, normalisation and
  `path.relative` over segment lists, with the separator fixed to `/`.
- `pathguard.dfy` (`PathGuard`): the `startsWith` test exactly as written, the
  segment-wise containment it is meant to enforce, and how the two relate.
- `store.dfy` (`Store`): the disk, its well-formedness, and the `fs` calls the
  handlers make (`stat`, `readFile`, `writeFile`, `unlink`, `readdir`).
- `filetree.dfy` (`FileTree`): the tree built by `generateFileTree`, as a
  recursive specification over the kind of object it is built into.
- `handlers.dfy` (`Handlers`): `file:change`, `GET /files/content`,
  `DELETE /files` and `GET /files`, each as one step from a disk to a reply and
  a new disk.
- `watcher.dfy` (`Watcher`): the mapping from a watcher notification to a
  broadcast event.
- `server.dfy` (`Server`): a `Workspace` object that owns the disk. Its methods
  carry out each handler step by step. `BuildTree` fills the tree in a loop and
  recurses into directories. Each method is proved equal to its description in
  `Handlers` or `FileTree`, and each keeps the disk well-formed.

The root is a parameter (`Config.root`), where the source hard-codes it. The
guard is a parameter too. `AsWritten` is the source's string-prefix test.
`Contained` is the segment-wise test the source's comment describes (see
Findings). Every handler lemma is stated for both guards, unless it names one.

A client path is an `Option<string>`. `None` stands for a payload whose `path`
is not a string. `path.join` throws on such a payload, so the handler falls into
its catch branch: `file:change` does nothing, a read answers 404 and a delete
answers 500.

The code answers 500 for every unlink failure, including a missing file, and
the model does the same.

Node's fs layer refuses any path string that holds a NUL character before it
makes a system call. So `Store.Stat`, `ReadFile`, `WriteFile`, `Unlink` and
`ReadDir` fail on such a path, and no name on a well-formed disk holds one.
A client path with a NUL passes the guard and is then refused: `file:change`
writes nothing, a read answers 404 and a delete answers 500.

The tree of `GET /files` is built into plain JavaScript objects. On such an
object, assigning under the name `__proto__` replaces the object's prototype
and creates no key. The kind of object is a parameter too (`Config.kind`).
`PlainObject` is the source, and `NullPrototype` is an object without a
prototype, where every name becomes a key (see Findings).

## Model

| member | source | states |
|---|---|---|
| Paths.IntercalateSplit | server/index.js:89 | Joining the pieces of any string at `/` gives the string back. |
| Paths.SplitIntercalate | server/index.js:89 | Splitting names joined with `/` gives back exactly those names, when no name contains `/`. |
| Paths.ResolveAppend | server/index.js:89 | Normalising a concatenation is the same as normalising the second part from the state the first part left. |
| Paths.ResolveUps | server/index.js:57 | Each `..` segment drops exactly one trailing segment, so k of them drop k. |
| Paths.ResolveCanonical | server/index.js:89 | Normalisation leaves only plain names. When no `..` occurs, the starting path is kept as a prefix. |
| Paths.NormalizeFormat | server/index.js:89 | Printing a normalised path and normalising the string gives the same path. |
| Paths.JoinIsResolve | server/index.js:89 | `path.join(root, rel)` on the root string equals normalising rel's segments starting from the root's segments. |
| Paths.JoinCanonical | server/index.js:134 | Every joined path is normalised, and a client path without `..` joins to a path at or below the root. |
| Paths.RelativeRoundTrip | server/index.js:57 | `join(root, relative(root, p)) == p` for every normalised p, inside the root or outside it. |
| Paths.RelativeUnderRoot | server/index.js:63 | For p at or below the root, `relative(root, p)` is p's remaining names joined with `/`, with no `..`. |
| PathGuard.NamePrefix | server/index.js:92 | For two names, each followed by nothing or by `/`, the string-prefix relation holds exactly in the two cases stated. |
| PathGuard.StartsWithStep | server/index.js:92 | The string test on two paths reduces to their first names and then the rest of each path. |
| PathGuard.LooselyWithinStep | server/index.js:92 | Loose containment reduces to equal first names and loose containment of the rest. |
| PathGuard.StartsWithIff | server/index.js:91-92 | For a non-empty root, the source's `startsWith` test admits p exactly when p matches the root on all names but the last, and the root's last name is a string prefix of p's name there. |
| PathGuard.ContainedPassesStartsWith | server/index.js:136-137 | Every path contained segment-wise in the root passes the `startsWith` test. |
| PathGuard.ContainedStricter | server/index.js:156-157 | Whatever the segment-wise guard admits, the source's test admits too. |
| PathGuard.NoParentSegmentAdmitted | server/index.js:89-92 | A client path with no `..` segment joins to a path under the root, and both guards admit it. |
| PathGuard.SiblingEscape | server/index.js:89-92 | Take a root whose last name is a proper prefix of a sibling's name. Then `../<sibling>` joins to that sibling, which the `startsWith` test admits although it is outside the root. |
| PathGuard.SiblingEscapeExample | server/index.js:91-92 | With root `/srv/user`, `../user2` reaches `/srv/user2`. The source's test admits it and the segment-wise test refuses it. |
| PathGuard.ContainedAdmitsExactly | server/index.js:91 | The segment-wise guard admits a client path exactly when normalising it from the root stays at or below the root. |
| Store.ChildrenExact | server/index.js:178 | `readdir` lists exactly the names n for which `dir/n` is on the disk. |
| Store.AncestorsAreDirs | server/index.js:184 | On a well-formed disk, every proper ancestor of an entry is a directory. |
| Store.WriteKeepsWellFormed | server/index.js:105 | Writing a file to a normalised path whose parent is a directory keeps the disk well-formed. |
| Store.UnlinkKeepsWellFormed | server/index.js:161 | Unlinking a file keeps the disk well-formed. |
| Store.WriteChild | server/index.js:105 | Writing a NUL-free name that is not a directory into a directory of a well-formed disk succeeds, and the disk stays well-formed. |
| FileTree.BelowShrinks | server/index.js:184-186 | Recursing into a child directory strictly shrinks the set of entries below, so the traversal terminates. |
| FileTree.SnapshotFaithful | server/index.js:177-191 | In the tree of a directory, a non-empty relative path is present exactly when it is on the disk and no name along it is one the object kind hides (`__proto__` for a plain object). It is `null` exactly when it is also a file there. |
| FileTree.SnapshotKeys | server/index.js:180-189 | Built into plain objects, the tree has one key per directory entry except `__proto__`. Without a prototype, it has one key per entry. A directory with nothing below it gives `{}`. |
| FileTree.ProtoEntryHidden | server/index.js:185-188 | An entry named `__proto__` that is on the disk is listed by readdir, yet the tree built into plain objects has no key for it. |
| FileTree.NullPrototypeFaithful | server/index.js:174-191 | Built into objects without a prototype, the tree has no exception: a non-empty path below the directory is present exactly when it is on the disk, and `null` exactly when it is a file. |
| Handlers.RejectedBeforeDiskAccess | server/index.js:89-95 | A path the guard refuses gets a fixed outcome, whatever the disk holds. `file:change` returns silently, read and delete answer 400 `Invalid file path`, and the disk is unchanged. |
| Handlers.DirectoryTargetRefused | server/index.js:97-102 | On a well-formed disk, a `file:change` whose target is a directory writes nothing and leaves the disk unchanged. |
| Handlers.FileChangeEffect | server/index.js:87-110 | A `file:change` writes exactly when the path is admitted, holds no NUL, its parent is a directory and it is not a directory. It then sets that one path to a file with exactly the content. Otherwise the disk is unchanged. The disk stays well-formed either way. |
| Handlers.WriteThenRead | server/index.js:105 | After a successful write of C to a client path, reading that path returns exactly C. |
| Handlers.ContentReplyCases | server/index.js:141-147 | For an admitted path, the read returns the content exactly when the path holds no NUL and is a file. Any other admitted path answers 404 `File not found or inaccessible`. |
| Handlers.DeleteEffect | server/index.js:161-166 | Deleting an admitted file removes exactly that entry, and a later read of it answers 404. A missing path or a directory answers 500, not 404, and changes nothing. The disk stays well-formed. |
| Handlers.FilesReplyCases | server/index.js:120-128 | `GET /files` returns the root's snapshot, built into the configured kind of object, exactly when the root is a directory whose path holds no NUL. Otherwise it answers 500 `Failed to generate file tree`. |
| Handlers.NulPathRefused | server/index.js:98-108 | An admitted path holding a NUL is refused by every fs call. `file:change` writes nothing, a read answers 404 and a delete answers 500, whatever the disk holds. |
| Handlers.ProtoFileMissingFromTree | server/index.js:87-128 | `file:change` to `__proto__` creates that file in the root, and readdir lists it. `GET /files` then has no key for it with plain objects, and has one with objects without a prototype. |
| Handlers.AsWrittenWritesOutsideRoot | server/index.js:89-106 | With the source's test, `file:change` to `../<sibling>` creates a file outside the root. The segment-wise guard refuses the same request. |
| Handlers.ContainedConfines | server/index.js:89-95 | With the segment-wise guard, neither `file:change` nor delete changes any path outside the root. |
| Watcher.EventName | server/index.js:56-72 | Only file additions, changes and removals produce an event. Directory notifications produce none. |
| Watcher.EventNamesDistinct | server/index.js:58 | `add`, `change` and `unlink` map to three distinct event names. |
| Watcher.PayloadRoundTrip | server/index.js:57-58 | Joining the root with an event's payload gives back the notified path. |
| Watcher.TranslateInjective | server/index.js:62-64 | An event determines both the kind of notification and the path it came from. |
| Watcher.PayloadUnderRoot | server/index.js:68-70 | For a path under the root, the payload is the path's remaining names, never climbing with `..`. |
| Watcher.EchoCarriesClientPath | server/index.js:63-64 | After a client writes a plain relative path, the watcher event for that file carries the same path string. |
| Server.Workspace.OnFileChange | server/index.js:87-110 | Joins, guards, stats and writes step by step. The outcome and the new disk are those of `Handlers.FileChange`, so a path with a NUL writes nothing. The disk stays well-formed. |
| Server.Workspace.GetContent | server/index.js:131-148 | Reads without changing anything. The reply is that of `Handlers.ContentReply`. |
| Server.Workspace.Delete | server/index.js:151-167 | Guards and unlinks. The reply and the new disk are those of `Handlers.DeleteReply`, and the disk stays well-formed. |
| Server.Workspace.GetFiles | server/index.js:120-128 | Answers 500 when the root cannot be listed. Otherwise it returns the tree built by `BuildTree`. The reply is that of `Handlers.FilesReply`, so a plain object shows no `__proto__` key. |
| Server.Workspace.BuildTree | server/index.js:173-195 | Lists a directory, then assigns `null` for each file and the recursively built object for each directory. On a plain object the assignment under `__proto__` creates no key. The loop's result is the directory's snapshot for every listing order, so two builds over an unchanged disk are equal. |
| Server.Workspace.EntryAt | server/index.js:180-189 | One loop step. A directory entry gets the recursively built object and any other entry gets `null`, exactly the snapshot's value under that name. |

## Left out

- Express, CORS, the HTTP server and `server.listen` (server/index.js:31-50, 170) are not modelled. A reply is only its JSON body and status code (`Handlers.Reply`).
- socket.io is not modelled: connections, `io.emit` fan-out, and the `file:refresh` sent on connection (server/index.js:75-84). The connection set lives inside that library. `file:change` is modelled as the handler step it triggers.
- The node-pty shell and the terminal relay (server/index.js:19-29, 75-77, 113-116) are not modelled. The code only forwards bytes to and from a foreign process.
- The chokidar subscription itself (server/index.js:53) is not modelled. Only the translation of a notification into an event is modelled, and the notified path is taken to be normalised and absolute.
- The `fs.mkdir` bootstrap of the root (server/index.js:15-17) and all console logging are not modelled. The model's disk is any well-formed map, and a missing root makes `GET /files` answer 500.
- Interleaving of asynchronous handlers is not modelled. Each handler is one atomic step on the disk, so races between a stat and a write, or a tree built during a mutation, are not represented.
- Windows path semantics are not modelled: drive letters, `\` as separator, case-insensitive names. The separator is `/` and the root is a list of names.
- Paths.Join: a trailing separator in the client path is dropped. Node keeps it (`x/`), and the operating system then refuses to stat, read, write or unlink a file named with one. Such a request therefore writes a file in the model where the source would fail.
- Handlers.FileChange: the content is always a string. In the source, a Buffer or typed array (socket.io binary data) is written as raw bytes, and so is an iterable on Node versions whose `writeFile` accepts one; neither is modelled. Other non-string values, such as a number or a missing `content`, make `writeFile` throw. A missing payload object throws before the `try`.
- Store.WriteFile: permissions, full disks, over-long names and other I/O errors are not modelled. The only failures are a NUL in the path, a missing parent, a parent that is a file, and a directory as target.
- Store.Stat: permission errors and over-long names (EACCES, ENAMETOOLONG) are not modelled. The only failures are a NUL in the path and a missing entry. At server/index.js:98 every stat failure counts as "not a directory". At server/index.js:182 the stat has no catch, so one failure makes the whole `GET /files` answer 500 `Failed to generate file tree`. The disk in the model cannot express the causes of such a failure: a directory that can be listed but not searched (EACCES on each entry), a dangling symbolic link, or a name that is not valid UTF-8, which readdir reports with U+FFFD so that its stat fails with ENOENT. On a well-formed disk `Server.Workspace.EntryAt` always finds the entry it stats.
- Store.ReadFile: permission errors and over-long names are not modelled. The source answers 404 for them as for a missing file.
- Store.Unlink: permission errors and over-long names are not modelled. The source answers 500 for them as for a missing file.
- Store.ReadDir: permission errors and over-long names are not modelled. The source answers 500 for them as for a missing root.
- Handlers.WriteThenRead: contents and names are modelled as sequences of Unicode scalar values. A JavaScript string can hold an unpaired surrogate, which `writeFile` with `utf-8` stores as U+FFFD, so the read-back differs from what was sent. The round trip holds only for well-formed Unicode text, which is all the model can express. A name on the disk that is not valid UTF-8 is also out of reach: readdir reports it with U+FFFD, its stat at server/index.js:182 fails, and `GET /files` answers 500.
- Symbolic links are not modelled. `stat` follows them in the source, and a dangling link in the tree makes `GET /files` answer 500.

## Findings

| source | as written | input that shows it | evidently intended | confidence | as-written member | corrected member |
|---|---|---|---|---|---|---|
| server/index.js:91-92 | `fullPath.startsWith(userDir)`, a string prefix test on the joined path, used the same way at :137 and :157 | root `/srv/user`, client path `../user2` (or `../user2/x`): joins to `/srv/user2`, which starts with `/srv/user` | the comment's "within the 'user' directory": the joined path is the root or below it, compared segment by segment | high, not executed | Handlers.AsWrittenWritesOutsideRoot | Handlers.ContainedConfines |
| server/index.js:185-188 | assignment `currentTree[file] = …` on a plain object created with `{}` (:174, :185) | a file `__proto__` in the root, created by `file:change` with path `__proto__`: readdir lists it, and `GET /files` has no key for it; a directory of that name hides its whole subtree | one key per directory entry, as for every other name | high, not executed | Handlers.ProtoFileMissingFromTree | FileTree.NullPrototypeFaithful |

`PathGuard.StartsWithIff` gives the exact extent of the flaw. Besides the root's
own subtree, the test admits only paths that match the root on all names but
the last, where the path's name extends the root's last name. With the
`Contained` guard, the handlers modify nothing outside the root
(`Handlers.ContainedConfines`). That guard never admits more than the source's
test (`PathGuard.ContainedStricter`).
