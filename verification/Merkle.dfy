/** The BitTorrent v2 hash tree of a file (BEP 52, "pieces root" and "piece layers").
    A tree is perfect: its leaves are the block hashes, filled up with zero
    hashes to a power of two. The reference meaning of a root combines the roots of
    the two halves; the program instead combines neighbours, one level after
    the other, and keeps the level whose entries each cover one piece. */
module Merkle {
  import opened Arithmetic
  import opened Wrappers

  const BLOCK: nat := 16 * 1024

  function Pow2(k: nat): (p: nat)
    ensures p > k
  {
    if k == 0 then 1 else 2 * Pow2(k - 1)
  }

  function CeilDiv(a: nat, b: nat): nat
    requires b > 0
  {
    (a + b - 1) / b
  }

  /** The exponent of the least power of two that is at least `n`. */
  function Log2Ceil(n: nat, from: nat := 0): (k: nat)
    ensures k >= from && n <= Pow2(k)
    ensures k == from || Pow2(k - 1) < n
    decreases if n > from then n - from else 0
  {
    if n <= Pow2(from) then from else Log2Ceil(n, from + 1)
  }

  // ----- what a tree means -----

  /** The root of a perfect tree: the hash of the roots of its two halves. */
  function Root<D>(h: (D, D) -> D, leaves: seq<D>, k: nat): D
    requires |leaves| == Pow2(k)
  {
    if k == 0 then leaves[0]
    else h(Root(h, leaves[..Pow2(k - 1)], k - 1), Root(h, leaves[Pow2(k - 1)..], k - 1))
  }

  function Repeat<D>(d: D, n: nat): (s: seq<D>)
    ensures |s| == n && forall i :: 0 <= i < n ==> s[i] == d
  {
    if n == 0 then [] else Repeat(d, n - 1) + [d]
  }

  /** The leaves of a file, filled up to a perfect tree. */
  function Padded<D>(leaves: seq<D>, zero: D): (s: seq<D>)
    ensures |s| == Pow2(Log2Ceil(|leaves|))
  {
    leaves + Repeat(zero, Pow2(Log2Ceil(|leaves|)) - |leaves|)
  }

  /** The root over nothing but zero leaves. */
  ghost function ZeroRoot<D>(h: (D, D) -> D, zero: D, k: nat): D {
    if k == 0 then zero else h(ZeroRoot(h, zero, k - 1), ZeroRoot(h, zero, k - 1))
  }

  lemma {:induction false} ZeroLeaves<D>(h: (D, D) -> D, zero: D, leaves: seq<D>, k: nat)
    requires |leaves| == Pow2(k) && forall i :: 0 <= i < |leaves| ==> leaves[i] == zero
    ensures Root(h, leaves, k) == ZeroRoot(h, zero, k)
  {
    if k > 0 {
      ZeroLeaves(h, zero, leaves[..Pow2(k - 1)], k - 1);
      ZeroLeaves(h, zero, leaves[Pow2(k - 1)..], k - 1);
    }
  }

  // ----- one level at a time -----

  /** A level from the level below it. */
  function Pairs<D>(h: (D, D) -> D, s: seq<D>): (r: seq<D>)
    ensures |r| == |s| / 2
    ensures forall i :: 0 <= i < |r| ==> r[i] == h(s[2 * i], s[2 * i + 1])
  {
    if |s| < 2 then [] else Pairs(h, s[..|s| - |s| % 2 - 2]) + [h(s[|s| - |s| % 2 - 2], s[|s| - |s| % 2 - 1])]
  }

  function Level<D>(h: (D, D) -> D, leaves: seq<D>, j: nat): seq<D> {
    if j == 0 then leaves else Pairs(h, Level(h, leaves, j - 1))
  }

  lemma {:induction false} LevelSize<D>(h: (D, D) -> D, leaves: seq<D>, k: nat, j: nat)
    requires |leaves| == Pow2(k) && j <= k
    ensures |Level(h, leaves, j)| == Pow2(k - j)
    decreases j
  {
    hide Pairs;
    if j > 0 {
      LevelSize(h, leaves, k, j - 1);
    }
  }

  lemma PairsOfHalves<D>(h: (D, D) -> D, s: seq<D>, half: nat)
    requires |s| == 2 * half && half % 2 == 0
    ensures Pairs(h, s)[..half / 2] == Pairs(h, s[..half])
    ensures Pairs(h, s)[half / 2..] == Pairs(h, s[half..])
  {
    hide Pairs;
    forall i | 0 <= i < half / 2
      ensures Pairs(h, s)[half / 2..][i] == Pairs(h, s[half..])[i]
    {
      assert s[half..][2 * i] == s[2 * (half / 2 + i)] && s[half..][2 * i + 1] == s[2 * (half / 2 + i) + 1];
    }
  }

  lemma RootOfOne<D>(h: (D, D) -> D, leaves: seq<D>)
    requires |leaves| == 1
    ensures Root(h, leaves, 0) == leaves[0]
  {
  }

  lemma RootOfHalves<D>(h: (D, D) -> D, leaves: seq<D>, k: nat, half: nat)
    requires k > 0 && half == Pow2(k - 1) && |leaves| == 2 * half
    ensures Pow2(k) == 2 * half
    ensures Root(h, leaves, k) == h(Root(h, leaves[..half], k - 1), Root(h, leaves[half..], k - 1))
  {
  }

  /** Combining pairs does not change the root. */
  lemma {:induction false} RootOfPairs<D>(h: (D, D) -> D, s: seq<D>, k: nat)
    requires |s| == Pow2(k) && k > 0
    ensures Root(h, Pairs(h, s), k - 1) == Root(h, s, k)
    decreases k
  {
    hide Pairs, Root, Pow2;
    var half := Pow2(k - 1);
    Pow2Twice(k);
    RootOfHalves(h, s, k, half);
    if k == 1 {
      Pow2Zero();
      RootOfPair(h, s);
    } else {
      Pow2Twice(k - 1);
      RootOfPairs(h, s[..half], k - 1);
      RootOfPairs(h, s[half..], k - 1);
      PairsOfHalves(h, s, half);
      RootOfHalves(h, Pairs(h, s), k - 1, half / 2);
    }
  }

  lemma RootOfPair<D>(h: (D, D) -> D, s: seq<D>)
    requires |s| == 2
    ensures |Pairs(h, s)| == Pow2(0) && |s| == Pow2(1)
    ensures Root(h, Pairs(h, s), 0) == Root(h, s, 1)
  {
    hide Pairs;
    assert Pairs(h, s)[0] == h(s[2 * 0], s[2 * 0 + 1]);
    assert s[..1][0] == s[0] && s[1..][0] == s[1];
  }

  lemma Pow2Zero()
    ensures Pow2(0) == 1
  {
  }

  lemma Pow2Twice(k: nat)
    requires k > 0
    ensures Pow2(k) == 2 * Pow2(k - 1)
  {
  }

  lemma {:induction false} RootOfLevel<D>(h: (D, D) -> D, leaves: seq<D>, k: nat, j: nat)
    requires |leaves| == Pow2(k) && j <= k
    ensures |Level(h, leaves, j)| == Pow2(k - j)
    ensures Root(h, Level(h, leaves, j), k - j) == Root(h, leaves, k)
    decreases j
  {
    hide Pairs, Root;
    LevelSize(h, leaves, k, j);
    if j > 0 {
      LevelSize(h, leaves, k, j - 1);
      RootOfLevel(h, leaves, k, j - 1);
      RootOfPairs(h, Level(h, leaves, j - 1), k - j + 1);
    }
  }

  /** An entry of a level is the root of the leaves below it, the first of them at `at`. */
  lemma {:induction false} LevelAt<D>(h: (D, D) -> D, leaves: seq<D>, k: nat, j: nat, i: nat, at: nat)
    requires |leaves| == Pow2(k) && j <= k && i < Pow2(k - j) && at == i * Pow2(j)
    ensures |Level(h, leaves, j)| == Pow2(k - j)
    ensures at + Pow2(j) <= |leaves|
    ensures Level(h, leaves, j)[i] == Root(h, leaves[at..at + Pow2(j)], j)
    decreases j
  {
    hide Pairs, Root, Pow2, Level;
    LevelSize(h, leaves, k, j);
    if j == 0 {
      BottomLevel(h, leaves, i);
    } else {
      var half := Pow2(j - 1);
      Pow2Twice(j);
      Pow2Twice(k - j + 1);
      Doubling(i, half, Pow2(j));
      LevelAt(h, leaves, k, j - 1, 2 * i, at);
      LevelAt(h, leaves, k, j - 1, 2 * i + 1, at + half);
      LevelUp(h, leaves, j, i);
      RootOfTwo(h, leaves, at, j, at + half);
    }
  }

  lemma BottomLevel<D>(h: (D, D) -> D, leaves: seq<D>, i: nat)
    requires i < |leaves|
    ensures Pow2(0) == 1 && Level(h, leaves, 0) == leaves
    ensures Root(h, leaves[i..i + 1], 0) == leaves[i]
  {
  }

  lemma LevelUp<D>(h: (D, D) -> D, leaves: seq<D>, j: nat, i: nat)
    requires j > 0 && i < |Level(h, leaves, j)|
    ensures 2 * i + 1 < |Level(h, leaves, j - 1)|
    ensures Level(h, leaves, j)[i] == h(Level(h, leaves, j - 1)[2 * i], Level(h, leaves, j - 1)[2 * i + 1])
  {
    hide Pairs;
  }

  lemma Doubling(i: nat, half: nat, whole: nat)
    requires whole == 2 * half
    ensures i * whole == (2 * i) * half && (2 * i + 1) * half == i * whole + half
  {
  }

  /** Two neighbouring subtrees make the subtree over both. */
  lemma RootOfTwo<D>(h: (D, D) -> D, leaves: seq<D>, at: nat, j: nat, right: nat)
    requires j > 0 && right == at + Pow2(j - 1) && right + Pow2(j - 1) <= |leaves|
    ensures Root(h, leaves[at..at + Pow2(j)], j)
         == h(Root(h, leaves[at..right], j - 1), Root(h, leaves[right..right + Pow2(j - 1)], j - 1))
  {
    var below := leaves[at..at + Pow2(j)];
    assert below[..Pow2(j - 1)] == leaves[at..right];
    assert below[Pow2(j - 1)..] == leaves[right..right + Pow2(j - 1)];
  }

  // ----- sizes -----

  lemma CeilCovers(a: nat, b: nat)
    requires b > 0
    ensures a <= CeilDiv(a, b) * b
    ensures a > 0 ==> CeilDiv(a, b) > 0 && (CeilDiv(a, b) - 1) * b < a
    ensures a == 0 ==> CeilDiv(a, b) == 0
  {
    var q, r := (a + b - 1) / b, (a + b - 1) % b;
    assert a + b - 1 == q * b + r;
    assert (q - 1) * b == q * b - b;
    if a > 0 {
      assert q * b > 0;
    }
  }

  /** The least multiple count: a bound above is a bound on the quotient. */
  lemma CeilLeast(a: nat, b: nat, n: nat)
    requires b > 0
    ensures CeilDiv(a, b) <= n <==> a <= n * b
  {
    CeilCovers(a, b);
    MulMonotone(CeilDiv(a, b), n, b);
    MulMonotone(n + 1, CeilDiv(a, b), b);
    assert (n + 1) * b == n * b + b;
    assert (CeilDiv(a, b) - 1) * b == CeilDiv(a, b) * b - b;
  }

  lemma {:induction false} Pow2Increasing(a: nat, b: nat)
    requires a < b
    ensures Pow2(a) < Pow2(b)
    decreases b
  {
    if a < b - 1 {
      Pow2Increasing(a, b - 1);
    }
  }

  lemma TwiceProduct(a: nat, b: nat)
    ensures a * (2 * b) == 2 * (a * b)
  {
  }

  lemma {:induction false} Pow2Adds(a: nat, b: nat)
    ensures Pow2(a + b) == Pow2(a) * Pow2(b)
    decreases b
  {
    if b > 0 {
      hide Pow2;
      Pow2Adds(a, b - 1);
      Pow2Twice(a + b);
      Pow2Twice(b);
      TwiceProduct(Pow2(a), Pow2(b - 1));
    }
  }

  /** The exponent is pinned down by its two bounds. */
  lemma Log2Unique(n: nat, k: nat)
    requires n <= Pow2(k) && (k > 0 ==> Pow2(k - 1) < n)
    ensures Log2Ceil(n) == k
  {
    var c := Log2Ceil(n);
    if c < k {
      if c < k - 1 {
        Pow2Increasing(c, k - 1);
      }
    } else if k < c {
      if k < c - 1 {
        Pow2Increasing(k, c - 1);
      }
    }
  }

  /** Blocks per piece and pieces per file fit together: a file longer than a piece has as many
      levels above its pieces as its pieces alone would need. */
  lemma PieceLevels(length: nat, per: nat, pieceLength: nat, kp: nat)
    requires per == Pow2(kp) && pieceLength == BLOCK * per && length > 0
    ensures pieceLength > 0
    ensures var k := Log2Ceil(CeilDiv(length, BLOCK));
            var pieces := CeilDiv(length, pieceLength);
            length > pieceLength ==> kp < k && Log2Ceil(pieces) == k - kp && pieces <= Pow2(k - kp)
    ensures CeilDiv(length, BLOCK) <= CeilDiv(length, pieceLength) * per
  {
    hide CeilDiv, Log2Ceil, Pow2;
    var leaves := CeilDiv(length, BLOCK);
    var pieces := CeilDiv(length, pieceLength);
    var k := Log2Ceil(leaves);
    PiecesByLeaves(length, per, pieces);
    if length > pieceLength {
      CeilLeast(length, BLOCK, per);
      BelowByPowers(k, kp, leaves);
      Pow2Adds(k - kp, kp);
      PiecesByLeaves(length, per, Pow2(k - kp));
      Pow2Adds(k - kp - 1, kp);
      PiecesByLeaves(length, per, Pow2(k - kp - 1));
      Log2Unique(pieces, k - kp);
    }
  }

  lemma BelowByPowers(k: nat, kp: nat, n: nat)
    requires Pow2(kp) < n <= Pow2(k)
    ensures kp < k
  {
    if k < kp {
      Pow2Increasing(k, kp);
    }
  }

  /** So many pieces suffice exactly when their blocks do. */
  lemma PiecesByLeaves(length: nat, per: nat, n: nat)
    requires per > 0
    ensures CeilDiv(length, BLOCK * per) <= n <==> CeilDiv(length, BLOCK) <= n * per
  {
    hide CeilDiv;
    CeilLeast(length, BLOCK * per, n);
    CeilLeast(length, BLOCK, n * per);
    assert n * (BLOCK * per) == (n * per) * BLOCK;
  }

  // ----- the computation -----

  /** The root, and for a file longer than a piece the roots of its pieces. */
  method Merkle<D>(h: (D, D) -> D, zero: D, leaves: seq<D>, length: nat, pieceLength: nat, ghost kp: nat)
    returns (root: D, pieceLayer: Option<seq<D>>)
    requires length > 0 && |leaves| == CeilDiv(length, BLOCK)
    requires pieceLength == BLOCK * Pow2(kp)
    ensures root == Root(h, Padded(leaves, zero), Log2Ceil(|leaves|))
    ensures pieceLayer.None? <==> length <= pieceLength
    ensures pieceLayer.Some? ==> IsPieceLayer(h, zero, leaves, pieceLayer.value, CeilDiv(length, pieceLength), kp)
  {
    hide Root, Pairs, Log2Ceil, CeilDiv, Pow2, Level, Padded;
    var perPiece := pieceLength / BLOCK;
    assert perPiece == Pow2(kp);
    PieceLevels(length, perPiece, pieceLength, kp);
    ghost var k := Log2Ceil(|leaves|);
    ghost var padded := Padded(leaves, zero);
    ghost var j := 0;
    Pow2Zero();
    LevelZero(h, padded);
    CoveredIs(0, kp);
    var layer := Padded(leaves, zero);
    var covered := 1;
    pieceLayer := if covered == perPiece then Some(layer) else None;
    while |layer| > 1
      invariant j <= k && layer == Level(h, padded, j) && |layer| == Pow2(k - j) && covered == Pow2(j)
      invariant pieceLayer == if j >= kp then Some(Level(h, padded, kp)) else None
      decreases |layer|
    {
      Pow2Twice(k - j);
      Pow2Twice(j + 1);
      LevelNext(h, padded, j);
      CoveredIs(j + 1, kp);
      layer := Pairs(h, layer);
      covered := covered * 2;
      j := j + 1;
      if covered == perPiece {
        pieceLayer := Some(layer);
      }
    }
    CoveredIs(k - j, 0);
    RootOfLevel(h, padded, k, j);
    RootOfOne(h, layer);
    root := layer[0];
    if length <= pieceLength {
      pieceLayer := None;
      return;
    }
    var pieces := CeilDiv(length, pieceLength);
    LevelSize(h, padded, k, kp);
    pieceLayer := Some(pieceLayer.value[..pieces]);
  }

  lemma LevelZero<D>(h: (D, D) -> D, leaves: seq<D>)
    ensures Level(h, leaves, 0) == leaves
  {
  }

  lemma LevelNext<D>(h: (D, D) -> D, leaves: seq<D>, j: nat)
    ensures Level(h, leaves, j + 1) == Pairs(h, Level(h, leaves, j))
  {
  }

  lemma CoveredIs(j: nat, kp: nat)
    ensures Pow2(j) == Pow2(kp) <==> j == kp
  {
    if j < kp {
      Pow2Increasing(j, kp);
    } else if kp < j {
      Pow2Increasing(kp, j);
    }
  }

  /** The first entries of the level whose subtrees are one piece each. */
  ghost predicate IsPieceLayer<D>(h: (D, D) -> D, zero: D, leaves: seq<D>, layer: seq<D>, pieces: nat, kp: nat) {
    var whole := Level(h, Padded(leaves, zero), kp);
    |layer| == pieces <= |whole| && layer == whole[..pieces]
  }

  /** Each entry of the piece layer is the root of the blocks of that piece, the first of them at `at`. */
  lemma PieceLayerAt<D>(h: (D, D) -> D, zero: D, leaves: seq<D>, layer: seq<D>, length: nat, kp: nat, i: nat, at: nat)
    requires length > BLOCK * Pow2(kp) && |leaves| == CeilDiv(length, BLOCK)
    requires IsPieceLayer(h, zero, leaves, layer, CeilDiv(length, BLOCK * Pow2(kp)), kp)
    requires i < |layer| && at == i * Pow2(kp)
    ensures at + Pow2(kp) <= |Padded(leaves, zero)|
    ensures layer[i] == Root(h, Padded(leaves, zero)[at..at + Pow2(kp)], kp)
  {
    hide Root, Level, CeilDiv, Pow2, Log2Ceil, Padded;
    PieceLevels(length, Pow2(kp), BLOCK * Pow2(kp), kp);
    LevelAt(h, Padded(leaves, zero), Log2Ceil(|leaves|), kp, i, at);
  }

  /** Past the last piece every subtree is zero. */
  lemma BeyondIsZero<D>(h: (D, D) -> D, zero: D, leaves: seq<D>, pieces: nat, kp: nat, i: nat)
    requires |leaves| <= pieces * Pow2(kp) && pieces <= i
    requires kp <= Log2Ceil(|leaves|) && i < Pow2(Log2Ceil(|leaves|) - kp)
    ensures i < |Level(h, Padded(leaves, zero), kp)|
    ensures Level(h, Padded(leaves, zero), kp)[i] == ZeroRoot(h, zero, kp)
  {
    hide Root, Pairs, Level, Log2Ceil;
    var padded := Padded(leaves, zero);
    LevelAt(h, padded, Log2Ceil(|leaves|), kp, i, i * Pow2(kp));
    MulMonotone(pieces, i, Pow2(kp));
    ZeroLeaves(h, zero, padded[i * Pow2(kp)..i * Pow2(kp) + Pow2(kp)], kp);
  }

  lemma FillUp<D>(part: seq<D>, whole: seq<D>, d: D, m: nat)
    requires |part| <= |whole| == Pow2(m) && Log2Ceil(|part|) == m && part == whole[..|part|]
    requires forall i :: |part| <= i < |whole| ==> whole[i] == d
    ensures Padded(part, d) == whole
  {
    hide Log2Ceil, Pow2;
    assert whole == part + whole[|part|..];
    assert whole[|part|..] == Repeat(d, |whole| - |part|);
  }

  /** The piece layer, filled up with roots of zero subtrees, folds back to the root of the file. */
  lemma LayerFolds<D>(h: (D, D) -> D, zero: D, leaves: seq<D>, layer: seq<D>, length: nat, kp: nat)
    requires length > BLOCK * Pow2(kp) && |leaves| == CeilDiv(length, BLOCK)
    requires IsPieceLayer(h, zero, leaves, layer, CeilDiv(length, BLOCK * Pow2(kp)), kp)
    ensures var m := Log2Ceil(|layer|);
            Root(h, Padded(layer, ZeroRoot(h, zero, kp)), m) == Root(h, Padded(leaves, zero), Log2Ceil(|leaves|))
  {
    hide Root, CeilDiv, Level, Log2Ceil, Pow2, ZeroRoot, Padded, IsPieceLayer;
    PieceLevels(length, Pow2(kp), BLOCK * Pow2(kp), kp);
    FoldAt(h, zero, leaves, layer, CeilDiv(length, BLOCK * Pow2(kp)), Log2Ceil(|leaves|), kp);
  }

  lemma FoldAt<D>(h: (D, D) -> D, zero: D, leaves: seq<D>, layer: seq<D>, pieces: nat, k: nat, kp: nat)
    requires IsPieceLayer(h, zero, leaves, layer, pieces, kp)
    requires Log2Ceil(|leaves|) == k && kp < k && Log2Ceil(pieces) == k - kp && |leaves| <= pieces * Pow2(kp)
    ensures |layer| == pieces
    ensures Root(h, Padded(layer, ZeroRoot(h, zero, kp)), k - kp) == Root(h, Padded(leaves, zero), k)
  {
    hide Root, Level, Log2Ceil, Pow2, ZeroRoot, Padded;
    var padded := Padded(leaves, zero);
    var whole := Level(h, padded, kp);
    RootOfLevel(h, padded, k, kp);
    forall i | |layer| <= i < |whole|
      ensures whole[i] == ZeroRoot(h, zero, kp)
    {
      BeyondIsZero(h, zero, leaves, |layer|, kp, i);
    }
    FillUp(layer, whole, ZeroRoot(h, zero, kp), k - kp);
  }
}
