/** Hashing a stream of bytes in pieces of one length, however the stream arrives.
    A hash function is any function of the bytes hashed.
    The state of an unfinished hash is the bytes it was given. */
module TorrentPieces {
  import opened Arithmetic
  import opened Octets

  // ----- what the hashes of a stream mean -----

  /** One hash for every piece, the last of which may be shorter. */
  function Hashes<D>(digest: Bytes -> D, data: Bytes, n: nat): seq<D>
    requires n > 0
    decreases |data|
  {
    if data == [] then []
    else if |data| <= n then [digest(data)]
    else [digest(data[..n])] + Hashes(digest, data[n..], n)
  }

  ghost predicate Multiple(len: nat, n: nat)
    requires n > 0
  {
    len == 0 || (len >= n && Multiple(len - n, n))
  }

  lemma {:induction false} MultipleIsMod(len: nat, n: nat)
    requires n > 0
    ensures Multiple(len, n) <==> len % n == 0
    decreases len
  {
    if len >= n {
      MultipleIsMod(len - n, n);
      ModMinus(len, n);
    }
  }

  lemma ModMinus(len: nat, n: nat)
    requires n > 0 && len >= n
    ensures (len - n) % n == len % n
  {
    var q, r := len / n, len % n;
    assert len == q * n + r;
    assert len - n == (q - 1) * n + r;
    DivUnique(len - n, n, q - 1, r);
  }

  lemma {:induction false} MultipleSum(a: nat, b: nat, n: nat)
    requires n > 0 && Multiple(a, n) && Multiple(b, n)
    ensures Multiple(a + b, n)
    decreases a
  {
    if a > 0 {
      MultipleSum(a - n, b, n);
    }
  }

  /** Whole pieces hash on their own. */
  lemma {:induction false} HashesSplit<D>(digest: Bytes -> D, a: Bytes, b: Bytes, n: nat)
    requires n > 0 && Multiple(|a|, n)
    ensures Hashes(digest, a + b, n) == Hashes(digest, a, n) + Hashes(digest, b, n)
    decreases |a|
  {
    if a == [] {
      assert a + b == b;
    } else if |a| == n {
      assert (a + b)[..n] == a && (a + b)[n..] == b;
      assert b == [] ==> a + b == a;
    } else {
      HashesSplit(digest, a[n..], b, n);
      assert (a + b)[..n] == a[..n] && (a + b)[n..] == a[n..] + b;
    }
  }

  /** One hash per started piece. */
  lemma {:induction false} HashesCount<D>(digest: Bytes -> D, data: Bytes, n: nat)
    requires n > 0
    ensures |Hashes(digest, data, n)| == (|data| + n - 1) / n
    decreases |data|
  {
    if data == [] {
      DivUnique(n - 1, n, 0, n - 1);
    } else if |data| <= n {
      DivUnique(|data| + n - 1, n, 1, |data| - 1);
    } else {
      HashesCount(digest, data[n..], n);
      var q, r := (|data| - 1) / n, (|data| - 1) % n;
      assert |data| + n - 1 == (q + 1) * n + r;
      DivUnique(|data| + n - 1, n, q + 1, r);
    }
  }

  /** The stretch of the stream that starts at a position. */
  ghost function Stretch(data: Bytes, at: nat, n: nat): Bytes {
    if at + n <= |data| then data[at..at + n] else if at <= |data| then data[at..] else []
  }

  lemma StretchShifts(data: Bytes, at: nat, n: nat)
    requires n <= at && n <= |data|
    ensures Stretch(data[n..], at - n, n) == Stretch(data, at, n)
  {
  }

  /** Each hash is that of its own stretch of the stream. */
  lemma {:induction false} HashesAt<D>(digest: Bytes -> D, data: Bytes, n: nat, i: nat, at: nat)
    requires n > 0 && i < |Hashes(digest, data, n)| && at == i * n
    ensures at < |data|
    ensures Hashes(digest, data, n)[i] == digest(Stretch(data, at, n))
    decreases i
  {
    if i == 0 {
      assert data[0..] == data;
      assert |data| == n ==> data[..n] == data;
    } else {
      assert (i - 1) * n == i * n - n;
      MulBounds(i, n);
      HashesAt(digest, data[n..], n, i - 1, at - n);
      StretchShifts(data, at, n);
    }
  }

  // ----- hashing as the stream arrives -----

  /** Whole pieces of the stream are hashed, the rest of it is waiting. */
  ghost predicate Hashed<D>(digest: Bytes -> D, n: nat, data: Bytes, hashes: seq<D>, waiting: Bytes)
    requires n > 0
  {
    && |waiting| < n && |waiting| <= |data|
    && Multiple(|data| - |waiting|, n)
    && data[|data| - |waiting|..] == waiting
    && hashes == Hashes(digest, data[..|data| - |waiting|], n)
  }

  lemma Absorb<D>(digest: Bytes -> D, n: nat, data: Bytes, hashes: seq<D>, waiting: Bytes, part: Bytes)
    requires n > 0 && Hashed(digest, n, data, hashes, waiting) && |waiting| + |part| <= n
    ensures |waiting| + |part| < n ==> Hashed(digest, n, data + part, hashes, waiting + part)
    ensures |waiting| + |part| == n ==> Hashed(digest, n, data + part, hashes + [digest(waiting + part)], [])
  {
    var whole := data[..|data| - |waiting|];
    assert (data + part)[..|whole|] == whole;
    assert (data + part)[|whole|..] == waiting + part;
    assert data + part == whole + (waiting + part);
    if |waiting| + |part| == n {
      HashesSplit(digest, whole, waiting + part, n);
      assert Multiple(n, n);
      MultipleSum(|whole|, n, n);
      assert (data + part)[..|data + part|] == data + part;
    }
  }

  lemma HashedEnd<D>(digest: Bytes -> D, n: nat, data: Bytes, hashes: seq<D>, waiting: Bytes)
    requires n > 0 && Hashed(digest, n, data, hashes, waiting)
    ensures Hashes(digest, data, n) == hashes + (if waiting == [] then [] else [digest(waiting)])
  {
    HashesSplit(digest, data[..|data| - |waiting|], waiting, n);
    assert data == data[..|data| - |waiting|] + waiting;
  }

  lemma HashedStart<D>(digest: Bytes -> D, n: nat)
    requires n > 0
    ensures Hashed(digest, n, [], [], [])
  {
  }

  /** Piece hashes of one long stream. */
  class V1Pieces<D> {
    const digest: Bytes -> D
    const pieceLength: nat
    var hashes: seq<D>
    var hash: Bytes
    var filled: nat
    ghost var fed: Bytes

    ghost predicate Valid()
      reads this
    {
      pieceLength > 0 && filled == |hash| && Hashed(digest, pieceLength, fed, hashes, hash)
    }

    constructor (digest: Bytes -> D, pieceLength: nat)
      requires pieceLength > 0
      ensures Valid() && fed == [] && this.digest == digest && this.pieceLength == pieceLength
    {
      this.digest := digest;
      this.pieceLength := pieceLength;
      hashes, hash, filled, fed := [], [], 0, [];
      HashedStart(digest, pieceLength);
    }

    /** Take in the next bytes of the stream, any number of them. */
    method Update(bytes: Bytes)
      requires Valid()
      modifies this
      ensures Valid() && fed == old(fed) + bytes
    {
      hide Hashed;
      var done := 0;
      while done < |bytes|
        invariant 0 <= done <= |bytes|
        invariant Valid() && fed == old(fed) + bytes[..done]
      {
        HashedBounds(digest, pieceLength, fed, hashes, hash);
        var take := if pieceLength - filled < |bytes| - done then pieceLength - filled else |bytes| - done;
        var part := bytes[done..done + take];
        Absorb(digest, pieceLength, fed, hashes, hash, part);
        assert bytes[..done + take] == bytes[..done] + part;
        fed := fed + part;
        hash := hash + part;
        filled := filled + take;
        done := done + take;
        if filled == pieceLength {
          Flush();
        }
      }
      assert bytes[..done] == bytes;
    }

    method Flush()
      modifies this`hashes, this`hash, this`filled
      ensures hashes == old(hashes) + [digest(old(hash))] && hash == [] && filled == 0
    {
      hashes := hashes + [digest(hash)];
      hash := [];
      filled := 0;
    }

    /** The hashes of the unsplit stream. */
    method Finish() returns (r: seq<D>)
      requires Valid()
      modifies this
      ensures r == Hashes(digest, old(fed), pieceLength)
    {
      HashedEnd(digest, pieceLength, fed, hashes, hash);
      if filled > 0 {
        Flush();
      }
      r := hashes;
    }
  }

  lemma HashedBounds<D>(digest: Bytes -> D, n: nat, data: Bytes, hashes: seq<D>, waiting: Bytes)
    requires n > 0 && Hashed(digest, n, data, hashes, waiting)
    ensures |waiting| < n
  {
  }

  /** The same for the blocks of one file: what one read brought, after earlier reads. */
  method SplitBlocks<D>(digest: Bytes -> D, n: nat, ghost data: Bytes, leaves: seq<D>, block: Bytes, chunk: Bytes)
    returns (leaves': seq<D>, block': Bytes)
    requires n > 0 && Hashed(digest, n, data, leaves, block)
    ensures Hashed(digest, n, data + chunk, leaves', block')
  {
    hide Hashed;
    leaves', block' := leaves, block;
    var done := 0;
    assert data + chunk[..0] == data;
    while done < |chunk|
      invariant 0 <= done <= |chunk|
      invariant Hashed(digest, n, data + chunk[..done], leaves', block')
    {
      HashedBounds(digest, n, data + chunk[..done], leaves', block');
      var take := if n - |block'| < |chunk| - done then n - |block'| else |chunk| - done;
      var part := chunk[done..done + take];
      Absorb(digest, n, data + chunk[..done], leaves', block', part);
      assert (data + chunk[..done]) + part == data + chunk[..done + take];
      block' := block' + part;
      done := done + take;
      if |block'| == n {
        leaves' := leaves' + [digest(block')];
        block' := [];
      }
    }
    assert chunk[..done] == chunk;
  }
}
