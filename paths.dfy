/**
 * Node's POSIX path functions as the server uses them: `path.join` (concatenate,
 * then normalise), `path.relative`, and the string form of a path.
 *
 * A path is a sequence of segments. The separator is fixed to '/'; an absolute
 * path string is the separator followed by its segments joined with the separator.
 */
module Paths {

  type Path = seq<string>

  const Sep: char := '/'

  /** A segment that survives normalisation unchanged: a real directory-entry name. */
  predicate IsName(s: string) {
    s != "" && s != "." && s != ".." && Sep !in s
  }

  /** A normalised absolute path: every segment is a plain name. */
  predicate Canonical(p: Path) {
    forall i :: 0 <= i < |p| ==> IsName(p[i])
  }

  /** Splits a string at every separator: "" gives [""], "a//b" gives ["a", "", "b"]. */
  function Split(s: string): (parts: seq<string>)
    ensures |parts| >= 1
    ensures forall i :: 0 <= i < |parts| ==> Sep !in parts[i]
  {
    if s == [] then [""]
    else
      var rest := Split(s[1..]);
      if s[0] == Sep then [""] + rest
      else [[s[0]] + rest[0]] + rest[1..]
  }

  /** Joins the parts with one separator between neighbours. */
  function Intercalate(parts: seq<string>): string
  {
    if |parts| == 0 then ""
    else if |parts| == 1 then parts[0]
    else parts[0] + [Sep] + Intercalate(parts[1..])
  }

  /** The string Node prints for a normalised absolute path ("/" for the file-system root). */
  function Format(p: Path): string
  {
    [Sep] + Intercalate(p)
  }

  /**
   * The segment loop of Node's normalisation of an absolute path: empty and "."
   * segments vanish, ".." drops the last kept segment (and is dropped itself at
   * the root), every other segment is kept.
   */
  function Resolve(stack: Path, parts: seq<string>): Path
    decreases |parts|
  {
    if parts == [] then stack
    else if parts[0] == "" || parts[0] == "." then Resolve(stack, parts[1..])
    else if parts[0] == ".." then Resolve(if stack == [] then [] else stack[..|stack| - 1], parts[1..])
    else Resolve(stack + [parts[0]], parts[1..])
  }

  /** `path.normalize` of an absolute path string. */
  function Normalize(s: string): Path
  {
    Resolve([], Split(s))
  }

  /** `path.join(root, rel)`: Node skips an empty argument, joins the rest with the separator and normalises. */
  function Join(root: Path, rel: string): Path
  {
    Normalize(if rel == "" then Format(root) else Format(root) + [Sep] + rel)
  }

  /** n copies of the ".." segment. */
  function Ups(n: nat): (r: seq<string>)
    ensures |r| == n
    ensures forall i :: 0 <= i < n ==> r[i] == ".."
  {
    if n == 0 then [] else Ups(n - 1) + [".."]
  }

  /** Length of the longest common segment prefix of a and b. */
  function CommonPrefix(a: Path, b: Path): (k: nat)
    ensures k <= |a| && k <= |b|
    ensures a[..k] == b[..k]
    ensures k < |a| && k < |b| ==> a[k] != b[k]
  {
    if a == [] || b == [] || a[0] != b[0] then 0
    else
      var k := CommonPrefix(a[1..], b[1..]);
      assert a[1..][..k] == b[1..][..k];
      assert a[..k + 1] == [a[0]] + a[1..][..k];
      assert b[..k + 1] == [b[0]] + b[1..][..k];
      k + 1
  }

  /** `path.relative(from, to)`: climb out of `from` to the common ancestor, then descend into `to`. */
  function Relative(from: Path, to: Path): string
  {
    var k := CommonPrefix(from, to);
    Intercalate(Ups(|from| - k) + to[k..])
  }

  // ---------------------------------------------------------------------------
  // Split and Intercalate are inverse to each other.

  lemma {:induction false} IntercalateSplit(s: string)
    ensures Intercalate(Split(s)) == s
  {
    if s != [] {
      var rest := Split(s[1..]);
      IntercalateSplit(s[1..]);
      if s[0] == Sep {
        assert s == [Sep] + s[1..];
      } else if |rest| == 1 {
        assert s == [s[0]] + s[1..];
      } else {
        assert Intercalate(rest) == rest[0] + [Sep] + Intercalate(rest[1..]);
        assert s == [s[0]] + s[1..];
      }
    }
  }

  /** Splitting a separator-free name followed by the separator and a tail. */
  lemma {:induction false} SplitName(a: string, t: string)
    requires Sep !in a
    ensures Split(a) == [a]
    ensures Split(a + [Sep] + t) == [a] + Split(t)
  {
    if a != [] {
      SplitName(a[1..], t);
      assert (a + [Sep] + t)[1..] == a[1..] + [Sep] + t;
      assert [a[0]] + a[1..] == a;
    } else {
      assert a + [Sep] + t == [Sep] + t;
    }
  }

  lemma {:induction false} SplitIntercalateThen(parts: seq<string>, t: string)
    requires |parts| >= 1
    requires forall i :: 0 <= i < |parts| ==> Sep !in parts[i]
    ensures Split(Intercalate(parts) + [Sep] + t) == parts + Split(t)
  {
    var head, rest := parts[0], parts[1..];
    assert Sep !in head;
    if |parts| == 1 {
      assert Intercalate(parts) == head;
      SplitName(head, t);
    } else {
      var tail := Intercalate(rest);
      assert forall i :: 0 <= i < |rest| ==> Sep !in rest[i] by {
        forall i | 0 <= i < |rest| ensures Sep !in rest[i] {
          assert rest[i] == parts[i + 1];
        }
      }
      SplitIntercalateThen(rest, t);
      assert Intercalate(parts) == head + [Sep] + tail;
      assert Intercalate(parts) + [Sep] + t == head + [Sep] + (tail + [Sep] + t);
      SplitName(head, tail + [Sep] + t);
      assert parts == [head] + rest;
    }
  }

  lemma {:induction false} SplitIntercalate(parts: seq<string>)
    requires |parts| >= 1
    requires forall i :: 0 <= i < |parts| ==> Sep !in parts[i]
    ensures Split(Intercalate(parts)) == parts
  {
    if |parts| == 1 {
      SplitName(parts[0], "");
    } else {
      SplitIntercalate(parts[1..]);
      SplitName(parts[0], Intercalate(parts[1..]));
      assert parts == [parts[0]] + parts[1..];
    }
  }

  // ---------------------------------------------------------------------------
  // Normalisation.

  /** Normalising a concatenation is normalising the second part from where the first left off. */
  lemma {:induction false} ResolveAppend(stack: Path, a: seq<string>, b: seq<string>)
    ensures Resolve(stack, a + b) == Resolve(Resolve(stack, a), b)
    decreases |a|
  {
    if a != [] {
      assert (a + b)[1..] == a[1..] + b;
      var next := if a[0] == "" || a[0] == "." then stack
                  else if a[0] == ".." then (if stack == [] then [] else stack[..|stack| - 1])
                  else stack + [a[0]];
      ResolveAppend(next, a[1..], b);
    } else {
      assert a + b == b;
    }
  }

  /** Plain names are kept as they are. */
  lemma {:induction false} ResolveNames(stack: Path, p: Path)
    requires Canonical(p)
    ensures Resolve(stack, p) == stack + p
    decreases |p|
  {
    if p != [] {
      ResolveNames(stack + [p[0]], p[1..]);
      assert stack + [p[0]] + p[1..] == stack + p;
    }
  }

  /** Each ".." drops one kept segment. */
  lemma {:induction false} ResolveUps(stack: Path, n: nat)
    requires n <= |stack|
    ensures Resolve(stack, Ups(n)) == stack[..|stack| - n]
  {
    if n > 0 {
      ResolveAppend(stack, Ups(n - 1), [".."]);
      ResolveUps(stack, n - 1);
    }
  }

  /** Normalisation keeps only plain names, and keeps a canonical stack as its prefix when no ".." occurs. */
  lemma {:induction false} ResolveCanonical(stack: Path, parts: seq<string>)
    requires Canonical(stack)
    requires forall i :: 0 <= i < |parts| ==> Sep !in parts[i]
    ensures Canonical(Resolve(stack, parts))
    ensures (forall i :: 0 <= i < |parts| ==> parts[i] != "..") ==> stack <= Resolve(stack, parts)
    decreases |parts|
  {
    if parts != [] {
      if parts[0] == "" || parts[0] == "." {
        ResolveCanonical(stack, parts[1..]);
      } else if parts[0] == ".." {
        ResolveCanonical(if stack == [] then [] else stack[..|stack| - 1], parts[1..]);
      } else {
        ResolveCanonical(stack + [parts[0]], parts[1..]);
      }
    }
  }

  /** Printing a canonical path and normalising the string gives the path back. */
  lemma {:induction false} NormalizeFormat(p: Path)
    requires Canonical(p)
    ensures Normalize(Format(p)) == p
  {
    if p == [] {
      assert Format(p) == [Sep];
      assert [Sep][1..] == [];
      assert Split(Format(p)) == ["", ""];
      assert ["", ""][1..] == [""];
    } else {
      assert Format(p) == [Sep] + Intercalate(p);
      assert Split(Format(p)) == [""] + Split(Intercalate(p));
      SplitIntercalate(p);
      ResolveNames([], p);
    }
  }

  /** `path.join` of a canonical root is normalisation of the client's segments starting at the root. */
  lemma {:induction false} JoinIsResolve(root: Path, rel: string)
    requires Canonical(root)
    ensures Join(root, rel) == Resolve(root, Split(rel))
  {
    if rel == "" {
      NormalizeFormat(root);
    } else if root == [] {
      var s := Format(root) + [Sep] + rel;
      assert s == [Sep] + ([Sep] + rel);
      assert s[1..] == [Sep] + rel && s[1..][1..] == rel;
      var parts := Split(rel);
      assert Split(s[1..]) == [""] + parts;
      assert Split(s) == [""] + Split(s[1..]);
      assert Split(s) == ["", ""] + parts;
      assert (["", ""] + parts)[1..] == [""] + parts;
      assert ([""] + parts)[1..] == parts;
      assert Resolve([], ["", ""] + parts) == Resolve([], [""] + parts) == Resolve([], parts);
      assert Join(root, rel) == Normalize(s);
    } else {
      var s := Format(root) + [Sep] + rel;
      assert Join(root, rel) == Normalize(s);
      assert s == [Sep] + (Intercalate(root) + [Sep] + rel);
      assert s[1..] == Intercalate(root) + [Sep] + rel;
      SplitIntercalateThen(root, rel);
      assert Split(s) == [""] + (root + Split(rel));
      assert ([""] + (root + Split(rel)))[1..] == root + Split(rel);
      assert Resolve([], Split(s)) == Resolve([], root + Split(rel));
      ResolveAppend([], root, Split(rel));
      ResolveNames([], root);
      assert [] + root == root;
    }
  }

  /** Every joined path is canonical; a client path without ".." segments stays under the root. */
  lemma {:induction false} JoinCanonical(root: Path, rel: string)
    requires Canonical(root)
    ensures Canonical(Join(root, rel))
    ensures (forall i :: 0 <= i < |Split(rel)| ==> Split(rel)[i] != "..") ==> root <= Join(root, rel)
  {
    JoinIsResolve(root, rel);
    ResolveCanonical(root, Split(rel));
  }

  // ---------------------------------------------------------------------------
  // path.relative and path.join are inverse to each other.

  /** Joining the root with the relative path from the root to p gives p back, for every canonical p. */
  lemma {:induction false} RelativeRoundTrip(root: Path, p: Path)
    requires Canonical(root) && Canonical(p)
    ensures Join(root, Relative(root, p)) == p
  {
    var k := CommonPrefix(root, p);
    var parts := Ups(|root| - k) + p[k..];
    assert forall i :: 0 <= i < |parts| ==> Sep !in parts[i] by {
      forall i | 0 <= i < |parts| ensures Sep !in parts[i] {
        if i >= |root| - k {
          assert parts[i] == p[k + (i - (|root| - k))];
        }
      }
    }
    JoinIsResolve(root, Relative(root, p));
    if parts == [] {
      assert root == root[..k] && p == p[..k];
      assert Resolve(root, Split("")) == root;
    } else {
      SplitIntercalate(parts);
      ResolveAppend(root, Ups(|root| - k), p[k..]);
      ResolveUps(root, |root| - k);
      assert Canonical(p[k..]) by {
        forall i | 0 <= i < |p[k..]| ensures IsName(p[k..][i]) {
          assert p[k..][i] == p[k + i];
        }
      }
      ResolveNames(root[..k], p[k..]);
      assert root[..k] + p[k..] == p[..k] + p[k..] == p;
    }
  }

  /** For a path under the root, the relative path is just the remaining names: it never climbs. */
  lemma {:induction false} RelativeUnderRoot(root: Path, p: Path)
    requires root <= p
    ensures Relative(root, p) == Intercalate(p[|root|..])
  {
    var k := CommonPrefix(root, p);
    assert forall i :: 0 <= i < |root| ==> root[i] == p[i];
    assert k == |root|;
    assert Ups(0) == [];
    assert Ups(|root| - k) + p[k..] == p[|root|..];
  }
}
