/** Paths of bundle items, ordered like arrays: by the first difference, a prefix first.
    A path lists the offsets of an item and of all items around it, outermost first.
    Arrays of numbers compare the same way in the database, and so do
    the rows of height, position and path that placements are ordered by. */
module Paths {
  type Path = seq<nat>

  /** Bundles nest this deep at most. */
  const MAX_DEPTH: nat := 32

  predicate Less(a: Path, b: Path) {
    b != [] && (a == [] || a[0] < b[0] || (a[0] == b[0] && Less(a[1..], b[1..])))
  }

  lemma {:induction false} Irreflexive(a: Path)
    ensures !Less(a, a)
  {
    if a != [] {
      Irreflexive(a[1..]);
    }
  }

  lemma {:induction false} Transitive(a: Path, b: Path, c: Path)
    requires Less(a, b) && Less(b, c)
    ensures Less(a, c)
  {
    if a != [] && a[0] == b[0] && b[0] == c[0] {
      Transitive(a[1..], b[1..], c[1..]);
    }
  }

  lemma {:induction false} Total(a: Path, b: Path)
    ensures Less(a, b) || Less(b, a) || a == b
  {
    if a != [] && b != [] && a[0] == b[0] {
      Total(a[1..], b[1..]);
      if a[1..] == b[1..] {
        assert a == [a[0]] + a[1..] && b == [b[0]] + b[1..];
      }
    }
  }

  lemma NotBoth(a: Path, b: Path)
    ensures !(Less(a, b) && Less(b, a))
  {
    if Less(a, b) && Less(b, a) {
      Transitive(a, b, a);
      Irreflexive(a);
    }
  }

  lemma NotLessTransitive(a: Path, b: Path, c: Path)
    requires !Less(a, b) && !Less(b, c)
    ensures !Less(a, c)
  {
    Total(a, b);
    Total(b, c);
    if Less(a, c) {
      if a != b && b != c {
        Transitive(c, b, a);
        Transitive(a, c, a);
        Irreflexive(a);
      }
    }
  }

  /** A common front does not matter. */
  lemma {:induction false} CommonFront(front: Path, a: Path, b: Path)
    ensures Less(front + a, front + b) <==> Less(a, b)
    decreases |front|
  {
    if front == [] {
      assert front + a == a && front + b == b;
    } else {
      CommonFront(front[1..], a, b);
      assert (front + a)[1..] == front[1..] + a && (front + b)[1..] == front[1..] + b;
    }
  }

  /** A proper extension comes later. */
  lemma {:induction false} ExtensionLess(a: Path, b: Path)
    requires |a| < |b| && b[..|a|] == a
    ensures Less(a, b)
  {
    if a != [] {
      assert a[0] == b[..|a|][0];
      assert b[1..][..|a[1..]|] == b[..|a|][1..];
      ExtensionLess(a[1..], b[1..]);
    }
  }

  /** Paths that agree up to a position are ordered by what stands there. */
  lemma {:induction false} FirstDifference(a: Path, b: Path, k: nat)
    requires k < |a| && k < |b| && a[..k] == b[..k] && a[k] < b[k]
    ensures Less(a, b)
  {
    if k > 0 {
      assert a[0] == a[..k][0] == b[..k][0] == b[0];
      assert a[1..][..k - 1] == a[..k][1..] == b[..k][1..] == b[1..][..k - 1];
      FirstDifference(a[1..], b[1..], k - 1);
    }
  }
}
