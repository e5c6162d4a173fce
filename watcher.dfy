/**
 * The directory watcher's translation of file-system notifications into the
 * events broadcast to clients: the kind picks the event name, and the payload is
 * the notified path relative to the root.
 */
module Watcher {
  import opened Paths
  import opened Store

  /** The notifications the watcher library reports for the watched root. */
  datatype Notification = Add | Change | Unlink | AddDir | UnlinkDir

  /** An event broadcast to every client: its name and its path payload. */
  datatype ChangeEvent = ChangeEvent(name: string, path: string)

  /**
   * The server listens for file additions, changes and removals only; directory
   * notifications have no listener and produce nothing.
   */
  function EventName(kind: Notification): (name: Option<string>)
    ensures name.Some? <==> kind in {Add, Change, Unlink}
  {
    match kind
    case Add => Some("file:added")
    case Change => Some("file:changed")
    case Unlink => Some("file:deleted")
    case _ => None
  }

  function Translate(root: Path, kind: Notification, p: Path): Option<ChangeEvent>
  {
    match EventName(kind)
    case Some(name) => Some(ChangeEvent(name, Relative(root, p)))
    case None => None
  }

  // ---------------------------------------------------------------------------

  /** The three file notifications map to three distinct event names. */
  lemma EventNamesDistinct(k1: Notification, k2: Notification)
    requires EventName(k1).Some? && EventName(k2).Some?
    ensures EventName(k1) == EventName(k2) <==> k1 == k2
  {
  }

  /**
   * The payload locates the file: joining the root with it gives back the
   * notified path, for every canonical path, inside the root or not.
   */
  lemma PayloadRoundTrip(root: Path, kind: Notification, p: Path)
    requires Canonical(root) && Canonical(p)
    requires EventName(kind).Some?
    ensures Translate(root, kind, p).Some?
    ensures Join(root, Translate(root, kind, p).value.path) == p
  {
    RelativeRoundTrip(root, p);
  }

  /** An event determines both the notification kind and the path it came from. */
  lemma TranslateInjective(root: Path, k1: Notification, p1: Path, k2: Notification, p2: Path)
    requires Canonical(root) && Canonical(p1) && Canonical(p2)
    requires Translate(root, k1, p1).Some?
    requires Translate(root, k1, p1) == Translate(root, k2, p2)
    ensures k1 == k2 && p1 == p2
  {
    PayloadRoundTrip(root, k1, p1);
    PayloadRoundTrip(root, k2, p2);
  }

  /** For a path under the root, the payload is the remaining names: it never climbs with "..". */
  lemma PayloadUnderRoot(root: Path, kind: Notification, p: Path)
    requires root <= p
    requires EventName(kind).Some?
    ensures Translate(root, kind, p) == Some(ChangeEvent(EventName(kind).value, Intercalate(p[|root|..])))
  {
    RelativeUnderRoot(root, p);
  }

  /**
   * A client edit echoes back with the client's own path: when a client writes the
   * canonical relative path rel (names separated by '/'), the notification for the
   * file it reaches carries rel itself as its payload.
   */
  lemma EchoCarriesClientPath(root: Path, names: Path, kind: Notification)
    requires Canonical(root) && Canonical(names) && |names| > 0
    requires EventName(kind).Some?
    ensures Join(root, Intercalate(names)) == root + names
    ensures Translate(root, kind, Join(root, Intercalate(names))) == Some(ChangeEvent(EventName(kind).value, Intercalate(names)))
  {
    JoinIsResolve(root, Intercalate(names));
    SplitIntercalate(names);
    ResolveNames(root, names);
    RelativeUnderRoot(root, root + names);
    assert (root + names)[|root|..] == names;
  }
}
