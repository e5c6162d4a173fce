/**
 * The sandbox test every file handler runs on the joined path before touching
 * the disk, and the segment-wise containment it is meant to enforce.
 */
module PathGuard {
  import opened Paths

  /** The guard the handlers apply: the source's string test, or the segment-wise correction. */
  datatype Guard = AsWritten | Contained

  /** JavaScript's `String.prototype.startsWith`. */
  predicate StartsWith(s: string, prefix: string) {
    prefix <= s
  }

  /** p is the root or lies below it, compared segment by segment. */
  predicate IsWithin(root: Path, p: Path) {
    root <= p
  }

  /**
   * p agrees with the root on every segment but the last one of the root, where
   * the root's name need only be a string prefix of p's name. IsWithin is the
   * special case where that name is equal.
   */
  predicate LooselyWithin(root: Path, p: Path)
    requires |root| > 0
  {
    var k := |root| - 1;
    |root| <= |p| && root[..k] == p[..k] && root[k] <= p[k]
  }

  /** Whether the guard lets the joined path through to the disk. */
  predicate Admits(g: Guard, root: Path, p: Path) {
    match g
    case AsWritten => StartsWith(Format(p), Format(root))
    case Contained => IsWithin(root, p)
  }

  // ---------------------------------------------------------------------------

  /** What follows the first name in the printed form of a non-empty path. */
  function FormatRest(p: Path): string
    requires |p| >= 1
  {
    if |p| == 1 then "" else Format(p[1..])
  }

  /** A non-empty printed path is the separator, its first name, then nothing or a separator and the rest. */
  lemma FormatCons(p: Path)
    requires |p| >= 1
    ensures Format(p) == [Sep] + (p[0] + FormatRest(p))
    ensures FormatRest(p) == "" <==> |p| == 1
    ensures FormatRest(p) == "" || FormatRest(p)[0] == Sep
  {
    if |p| > 1 {
      assert Intercalate(p) == p[0] + [Sep] + Intercalate(p[1..]);
    }
  }

  /** A prefix agrees with the longer sequence at each of its own positions. */
  lemma PrefixAt(s: string, t: string, i: int)
    ensures s <= t && 0 <= i < |s| ==> i < |t| && s[i] == t[i]
  {
  }

  /** A common first part does not affect being a prefix. */
  lemma PrefixCancel(u: string, s: string, t: string)
    ensures u + s <= u + t <==> s <= t
  {
    if u + s <= u + t {
      assert s == (u + s)[|u|..] == (u + t)[|u|..|u| + |s|] == t[..|s|];
    }
  }

  /**
   * Comparing two names, each followed by nothing or by a separator: one string is a
   * prefix of the other exactly when the whole first name ends the prefix and is a
   * prefix of the second name, or the names are equal and the tails are prefixes.
   */
  lemma {:induction false} NamePrefix(a: string, x: string, b: string, y: string)
    requires Sep !in a && Sep !in b
    requires x == "" || x[0] == Sep
    requires y == "" || y[0] == Sep
    ensures a + x <= b + y <==> (x == "" && a <= b) || (a == b && x <= y)
  {
    if a + x <= b + y {
      if |a| < |b| {
        if x != "" {
          PrefixAt(a + x, b + y, |a|);
          assert false;
        }
        assert a == (a + x)[..|a|] == (b + y)[..|a|] == b[..|a|];
      } else if |a| == |b| {
        assert a == (a + x)[..|a|] == (b + y)[..|a|] == b;
        assert x == (a + x)[|a|..] && (b + y)[|b|..] == y;
      } else {
        PrefixAt(a + x, b + y, |b|);
        assert false;
      }
    }
  }

  /**
   * Exact characterisation of the source's string test, for a non-empty canonical
   * root: `Format(p).startsWith(Format(root))` holds exactly when p is loosely within
   * the root. The test therefore admits every sibling whose name extends the root's
   * last name, and nothing else beyond the root's own subtree.
   */
  lemma {:induction false} StartsWithIff(root: Path, p: Path)
    requires |root| > 0 && Canonical(root) && Canonical(p)
    ensures StartsWith(Format(p), Format(root)) <==> LooselyWithin(root, p)
    decreases |root|
  {
    if p == [] {
      FormatCons(root);
      assert Format(p) == [Sep];
    } else {
      StartsWithStep(root, p);
      if |root| > 1 && |p| > 1 {
        StartsWithIff(root[1..], p[1..]);
        LooselyWithinStep(root, p);
      }
    }
  }

  /** One name of the string test: the first names decide, unless they are equal and both paths go on. */
  lemma StartsWithStep(root: Path, p: Path)
    requires |root| > 0 && |p| > 0 && IsName(root[0]) && IsName(p[0])
    ensures StartsWith(Format(p), Format(root)) <==>
      (|root| == 1 && root[0] <= p[0]) ||
      (|root| > 1 && |p| > 1 && root[0] == p[0] && StartsWith(Format(p[1..]), Format(root[1..])))
  {
    FormatCons(root);
    FormatCons(p);
    var x, y := FormatRest(root), FormatRest(p);
    PrefixCancel([Sep], root[0] + x, p[0] + y);
    NamePrefix(root[0], x, p[0], y);
  }

  /** One name of loose containment: the first names are equal and the rest is loosely contained. */
  lemma LooselyWithinStep(root: Path, p: Path)
    requires |root| > 1 && |p| > 1
    ensures LooselyWithin(root, p) <==> root[0] == p[0] && LooselyWithin(root[1..], p[1..])
  {
    var k := |root| - 1;
    if root[0] == p[0] && LooselyWithin(root[1..], p[1..]) {
      assert root[..k] == [root[0]] + root[1..][..k - 1];
      assert p[..k] == [p[0]] + p[1..][..k - 1];
    }
    if LooselyWithin(root, p) {
      assert root[0] == root[..k][0] == p[..k][0] == p[0];
      assert root[1..][..k - 1] == root[..k][1..] == p[..k][1..] == p[1..][..k - 1];
    }
  }

  /** Every path contained segment-wise in the root passes the source's string test. */
  lemma {:induction false} ContainedPassesStartsWith(root: Path, p: Path)
    requires Canonical(root) && Canonical(p)
    requires IsWithin(root, p)
    ensures Admits(AsWritten, root, p)
  {
    if root == [] {
      assert Format(root) == [Sep] && Format(p)[0] == Sep;
    } else {
      StartsWithIff(root, p);
      assert root[..|root| - 1] == p[..|root| - 1];
    }
  }

  /** The correction only ever rejects more: whatever it admits, the source's test admits too. */
  lemma ContainedStricter(root: Path, p: Path)
    requires Canonical(root) && Canonical(p)
    ensures Admits(Contained, root, p) ==> Admits(AsWritten, root, p)
  {
    if Admits(Contained, root, p) {
      ContainedPassesStartsWith(root, p);
    }
  }

  /** A client path without any ".." segment joins to a path under the root, which both guards admit. */
  lemma NoParentSegmentAdmitted(g: Guard, root: Path, rel: string)
    requires Canonical(root)
    requires forall i :: 0 <= i < |Split(rel)| ==> Split(rel)[i] != ".."
    ensures IsWithin(root, Join(root, rel))
    ensures Admits(g, root, Join(root, rel))
  {
    JoinCanonical(root, rel);
    ContainedPassesStartsWith(root, Join(root, rel));
  }

  /**
   * The source's test is weaker than containment: for a root whose last name is a
   * proper string prefix of a sibling's name, the client path "../<sibling>" joins
   * to that sibling, which the source's test admits although it lies outside the root.
   */
  lemma {:induction false} SiblingEscape(root: Path, sibling: string)
    requires |root| > 0 && Canonical(root) && IsName(sibling)
    requires root[|root| - 1] < sibling
    ensures Join(root, ".." + [Sep] + sibling) == root[..|root| - 1] + [sibling]
    ensures Admits(AsWritten, root, Join(root, ".." + [Sep] + sibling))
    ensures !IsWithin(root, Join(root, ".." + [Sep] + sibling))
  {
    var rel := ".." + [Sep] + sibling;
    var k := |root| - 1;
    var escaped := root[..k] + [sibling];
    JoinIsResolve(root, rel);
    SplitName("..", sibling);
    SplitName(sibling, "");
    assert Split(rel) == ["..", sibling];
    assert Resolve(root, ["..", sibling]) == Resolve(root[..k], [sibling]) == Resolve(escaped, []);
    assert Canonical(escaped) by {
      forall i | 0 <= i < |escaped| ensures IsName(escaped[i]) {
        if i < k { assert escaped[i] == root[i]; }
      }
    }
    StartsWithIff(root, escaped);
    assert escaped[..k] == root[..k];
  }

  /** The instance with root /srv/user: "../user2" reaches /srv/user2 and is admitted. */
  lemma SiblingEscapeExample()
    ensures Join(["srv", "user"], "../user2") == ["srv", "user2"]
    ensures Admits(AsWritten, ["srv", "user"], ["srv", "user2"])
    ensures !Admits(Contained, ["srv", "user"], ["srv", "user2"])
  {
    assert "../user2" == ".." + [Sep] + "user2";
    assert "user" < "user2";
    SiblingEscape(["srv", "user"], "user2");
    assert ["srv", "user"][..1] + ["user2"] == ["srv", "user2"];
  }

  /** Under the corrected guard, admission means exactly that the joined path is the root or below it. */
  lemma ContainedAdmitsExactly(root: Path, rel: string)
    requires Canonical(root)
    ensures Admits(Contained, root, Join(root, rel)) <==> root <= Resolve(root, Split(rel))
  {
    JoinIsResolve(root, rel);
  }
}
