/** How occurrences of one bundle lie in the bytes of its root.
    In all-binary bundles an occurrence has a fixed place there, since the payload
    of a binary item is a stretch of the item.
    The start of an occurrence adds up the offsets of the items above it. */
module BundleGeometry {
  import opened BundleRows

  /** Only binary payloads are byte ranges of their item; JSON payloads are decoded. */
  ghost predicate AllBinary(s: Store) {
    forall p | p in s.rows :: !s.rows[p].json
  }

  ghost function Start(s: Store, path: Path): nat
    requires Inv(s) && path in s.rows
    decreases |path|
  {
    assert RowOk(s, path);
    if |path| == 1 then s.rows[path].offset
    else Start(s, Front(path)) + s.rows[Front(path)].dataOffset + s.rows[path].offset
  }

  ghost function End(s: Store, path: Path): nat
    requires Inv(s) && path in s.rows
  {
    Start(s, path) + s.rows[path].size
  }

  /** A nested item lies in the data part of the item around it. */
  lemma ChildInside(s: Store, path: Path)
    requires Inv(s) && AllBinary(s) && path in s.rows && |path| > 1
    ensures Front(path) in s.rows
    ensures Start(s, Front(path)) < Start(s, path) && End(s, path) <= End(s, Front(path))
  {
    assert RowOk(s, path);
    assert RowOk(s, Front(path));
  }

  lemma {:induction false} PrefixInside(s: Store, p: Path, q: Path)
    requires Inv(s) && AllBinary(s) && p in s.rows && q in s.rows
    requires p <= q
    ensures Start(s, p) <= Start(s, q) && End(s, q) <= End(s, p)
    ensures p != q ==> Start(s, p) < Start(s, q)
    decreases |q|
  {
    assert RowOk(s, p) && RowOk(s, q);
    if |p| < |q| {
      ChildInside(s, q);
      assert p <= Front(q);
      PrefixInside(s, p, Front(q));
    } else {
      assert p == q;
    }
  }

  lemma SiblingsApart(s: Store, p: Path, q: Path)
    requires Inv(s) && p in s.rows && q in s.rows && Siblings(p, q)
    ensures End(s, p) <= Start(s, q) || End(s, q) <= Start(s, p)
  {
    assert |p| == |Front(p)| + 1 == |q|;
    assert Disjoint(s.rows[p], s.rows[q]);
  }

  /** Where two paths part, their items are siblings. */
  lemma Apart(s: Store, p: Path, q: Path)
    requires Inv(s) && AllBinary(s) && p in s.rows && q in s.rows && !(p <= q) && !(q <= p)
    ensures End(s, p) <= Start(s, q) || End(s, q) <= Start(s, p)
  {
    hide Inv, AllBinary;
    var k := PartingOf(p, q);
    PrefixesStored(s, p);
    PrefixesStored(s, q);
    var a, b := p[..k + 1], q[..k + 1];
    assert Front(a) == p[..k] && Front(b) == q[..k] && a[k] != b[k];
    SiblingsApart(s, a, b);
    PrefixInside(s, a, p);
    PrefixInside(s, b, q);
  }

  /** Two occurrences of a binary tree are nested along a path prefix, or share no byte. */
  lemma NestedOrDisjoint(s: Store, p: Path, q: Path)
    requires Inv(s) && AllBinary(s) && p in s.rows && q in s.rows
    ensures p <= q ==> Start(s, p) <= Start(s, q) && End(s, q) <= End(s, p)
    ensures q <= p ==> Start(s, q) <= Start(s, p) && End(s, p) <= End(s, q)
    ensures !(p <= q) && !(q <= p) ==> End(s, p) <= Start(s, q) || End(s, q) <= Start(s, p)
  {
    hide Inv, AllBinary;
    if p <= q {
      PrefixInside(s, p, q);
    }
    if q <= p {
      PrefixInside(s, q, p);
    }
    if !(p <= q) && !(q <= p) {
      Apart(s, p, q);
    }
  }

  /** The first place where two paths differ. */
  lemma {:induction false} PartingOf(p: Path, q: Path) returns (k: nat)
    requires !(p <= q) && !(q <= p)
    ensures k < |p| && k < |q| && p[..k] == q[..k] && p[k] != q[k]
  {
    k := 0;
    if p[0] == q[0] {
      assert p == [p[0]] + p[1..] && q == [q[0]] + q[1..];
      var rest := PartingOf(p[1..], q[1..]);
      k := rest + 1;
      assert p[..k] == [p[0]] + p[1..][..rest] && q[..k] == [q[0]] + q[1..][..rest];
    }
  }
}
