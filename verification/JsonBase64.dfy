/** Checkpointed reading of a base64 payload held inside a JSON string. */
module JsonBase64 {
  import opened Arithmetic
  import opened Wrappers
  import opened Octets
  import opened Base64Text

  /** Characters decoded together; a whole number of base64 groups. */
  const DECODE_BLOCK: nat := 64 * 1024
  const MAX_STRIDES: nat := 4096

  datatype Checkpoint = Checkpoint(raw: nat, decoded: nat)

  // ----- one block -----

  /** The next block of the text and the raw bytes it takes. */
  ghost function NextBlock(rest: Bytes): Option<(Bytes, nat)> {
    match Take(rest, DECODE_BLOCK)
    case None => None
    case Some((chars, width)) =>
      match Decode(chars)
      case None => None
      case Some(b) => Some((b, width))
  }

  /** Decoding block by block is decoding everything: a block before the last holds whole groups. */
  lemma BlockSplits(rest: Bytes)
    requires NextBlock(rest).Some?
    ensures var (b, width) := NextBlock(rest).value;
            && width <= |rest| && width <= 6 * DECODE_BLOCK
            && (rest != [] ==> b != [] && width > 0)
            && DecodeText(rest) == Join(Some(b), DecodeText(rest[width..]))
  {
    hide Take, Decode, Unescape;
    TakeSplits(rest, DECODE_BLOCK);
    var (chars, width) := Take(rest, DECODE_BLOCK).value;
    var tail := Unescape(rest[width..]);
    if rest != [] {
      DecodeNonEmpty(chars);
    }
    if |chars| == DECODE_BLOCK {
      if tail.Some? {
        DecodeSplits(chars, tail.value);
      }
    } else {
      UnescapeNothing(rest[width..]);
      assert chars + [] == chars;
      assert Decode(chars).value + [] == Decode(chars).value;
    }
  }

  /** A malformed block makes the whole text malformed. */
  lemma BlockFails(rest: Bytes)
    requires NextBlock(rest).None?
    ensures DecodeText(rest).None?
  {
    hide Take, Decode, Unescape;
    if Take(rest, DECODE_BLOCK).None? {
      if Unescape(rest).Some? {
        TakeExists(rest, DECODE_BLOCK);
      }
    } else {
      TakeSplits(rest, DECODE_BLOCK);
      var (chars, width) := Take(rest, DECODE_BLOCK).value;
      var tail := Unescape(rest[width..]);
      if tail.Some? {
        if |chars| == DECODE_BLOCK {
          DecodeSplits(chars, tail.value);
        } else {
          UnescapeNothing(rest[width..]);
          assert chars + [] == chars;
        }
      }
    }
  }

  lemma UnescapeNothing(raw: Bytes)
    requires raw == []
    ensures Unescape(raw) == Some([]) && Decode([]) == Some([])
  {
  }

  // ----- the decoder -----

  function FirstBackslash(b: Bytes): (k: nat)
    ensures k <= |b|
    ensures forall i :: 0 <= i < k ==> b[i] != BACKSLASH
    ensures k < |b| ==> b[k] == BACKSLASH
  {
    if b == [] || b[0] == BACKSLASH then 0 else 1 + FirstBackslash(b[1..])
  }

  /** Characters that are not escaped stand for themselves. */
  lemma {:induction false} TakePlain(raw: Bytes, k: nat)
    requires k <= |raw|
    requires forall i :: 0 <= i < k ==> raw[i] != BACKSLASH
    ensures Take(raw, k) == Some((raw[..k], k))
    decreases k
  {
    if k > 0 {
      TakePlain(raw[1..], k - 1);
      assert [raw[0]] + raw[1..][..k - 1] == raw[..k];
    }
  }

  lemma TakeEscape(raw: Bytes)
    requires raw != []
    ensures Take(raw, 1) == match NextToken(raw)
                            case Some(t) => Some(([t.code], t.width))
                            case None => None
  {
    hide NextToken;
    if NextToken(raw).Some? {
      var t := NextToken(raw).value;
      assert Take(raw[t.width..], 0) == Some(([], 0));
      assert [t.code] + [] == [t.code];
    }
  }

  /** Some characters are what the first `n` bytes of the text hold. */
  ghost predicate Holds(rest: Bytes, encoded: Bytes, n: nat) {
    n <= |rest| && Take(rest, |encoded|) == Some((encoded, n))
  }

  lemma PlainHolds(rest: Bytes, encoded: Bytes, n: nat, available: Bytes, count: nat)
    requires Holds(rest, encoded, n) && available <= rest[n..] && count <= |available|
    requires forall i :: 0 <= i < count ==> available[i] != BACKSLASH
    ensures Holds(rest, encoded + available[..count], n + count)
  {
    hide Take;
    var here := rest[n..];
    assert here[..count] == available[..count];
    assert forall i :: 0 <= i < count ==> here[i] == available[i];
    TakePlain(here, count);
    TakeMore(rest, |encoded|, count);
  }

  lemma EscapeHolds(rest: Bytes, encoded: Bytes, n: nat)
    requires Holds(rest, encoded, n) && n < |rest| && |encoded| < DECODE_BLOCK
    ensures match NextToken(rest[n..])
            case Some(t) => Holds(rest, encoded + [t.code], n + t.width)
            case None => NextBlock(rest) == None
  {
    hide NextToken;
    TakeEscape(rest[n..]);
    if NextToken(rest[n..]).Some? {
      TakeMore(rest, |encoded|, 1);
    } else {
      TakeMore(rest, |encoded|, DECODE_BLOCK - |encoded|);
    }
  }

  lemma EndHolds(rest: Bytes, encoded: Bytes, n: nat)
    requires Holds(rest, encoded, n) && |encoded| <= DECODE_BLOCK
    requires |encoded| == DECODE_BLOCK || n == |rest|
    ensures NextBlock(rest) == if Decode(encoded).Some? then Some((Decode(encoded).value, n)) else None
    ensures encoded == [] <==> rest == []
    ensures n == 0 <==> rest == []
  {
    hide Decode;
    TakeMore(rest, |encoded|, DECODE_BLOCK - |encoded|);
    assert encoded + [] == encoded;
    TakeSplits(rest, DECODE_BLOCK);
  }

  /** Reads the text in blocks, through a buffer that may cut it anywhere. */
  class Decoder {
    const raw: Bytes
    var rawPosition: nat

    ghost predicate Valid()
      reads this
    {
      rawPosition <= |raw|
    }

    function Rest(): Bytes
      requires Valid()
      reads this
    {
      raw[rawPosition..]
    }

    constructor (raw: Bytes)
      ensures Valid() && this.raw == raw && rawPosition == 0
    {
      this.raw := raw;
      rawPosition := 0;
    }

    /** Some of the text still to come; nothing only at its end. */
    method FillBuf() returns (available: Bytes)
      requires Valid()
      ensures available <= Rest()
      ensures available == [] <==> Rest() == []
    {
      var count: nat := *;
      if Rest() == [] {
        return [];
      }
      available := Rest()[..1 + count % |Rest()|];
    }

    method ReadHex(digits: Bytes) returns (r: Option<nat>)
      ensures r == HexValue(digits)
    {
      var value := 0;
      var i := 0;
      while i < |digits|
        invariant i <= |digits|
        invariant HexValue(digits[..i]) == Some(value)
      {
        var digit := HexDigit(digits[i]);
        assert digits[..i + 1][..i] == digits[..i];
        if digit.None? {
          HexPrefixFails(digits, i + 1);
          return None;
        }
        value := value * 16 + digit.value;
        i := i + 1;
      }
      assert digits[..i] == digits;
      r := Some(value);
    }

    /** One escaped character. */
    method Escape() returns (r: Option<byte>)
      requires Valid() && Rest() != [] && Rest()[0] == BACKSLASH
      modifies this
      ensures Valid()
      ensures match NextToken(old(Rest()))
              case None => r == None
              case Some(t) => r == Some(t.code) && rawPosition == old(rawPosition) + t.width
    {
      ghost var rest := Rest();
      rawPosition := rawPosition + 1;
      if rawPosition == |raw| {
        return None;
      }
      var escaped := raw[rawPosition];
      rawPosition := rawPosition + 1;
      if escaped == 117 {
        if |raw| - rawPosition < 4 {
          return None;
        }
        var digits := raw[rawPosition..rawPosition + 4];
        assert digits == rest[2..6];
        rawPosition := rawPosition + 4;
        var value := ReadHex(digits);
        r := if value.Some? && value.value < 256 then Some(value.value) else None;
      } else if escaped == QUOTE || escaped == BACKSLASH || escaped == SLASH {
        r := Some(escaped);
      } else if escaped == 98 {
        r := Some(8);
      } else if escaped == 102 {
        r := Some(12);
      } else if escaped == 110 {
        r := Some(10);
      } else if escaped == 114 {
        r := Some(13);
      } else if escaped == 116 {
        r := Some(9);
      } else {
        r := None;
      }
    }

    /** One turn of the loop: a run of plain characters, or one escaped character; nothing at the end. */
    method Collect(encoded: Bytes, ghost start: nat) returns (r: Option<Bytes>)
      requires Valid() && start <= rawPosition && |encoded| < DECODE_BLOCK
      requires Holds(raw[start..], encoded, rawPosition - start)
      modifies this
      ensures Valid()
      ensures match r
              case None => NextBlock(raw[start..]) == None
              case Some(more) =>
                && start <= rawPosition && |more| <= DECODE_BLOCK && Holds(raw[start..], more, rawPosition - start)
                && (|more| > |encoded| || (more == encoded && rawPosition == |raw|))
    {
      hide NextToken, Take, Holds, NextBlock;
      ghost var rest := raw[start..];
      assert Rest() == rest[rawPosition - start..];
      var available := FillBuf();
      if available == [] {
        return Some(encoded);
      }
      var backslash := FirstBackslash(available);
      var count := if backslash < DECODE_BLOCK - |encoded| then backslash else DECODE_BLOCK - |encoded|;
      if count > 0 {
        PlainHolds(rest, encoded, rawPosition - start, available, count);
        r := Some(encoded + available[..count]);
        rawPosition := rawPosition + count;
        return;
      }
      EscapeHolds(rest, encoded, rawPosition - start);
      var escaped := Escape();
      r := if escaped.None? then None else Some(encoded + [escaped.value]);
    }

    /** The next block, however the buffer cuts the text. */
    method Next() returns (r: Option<Option<Bytes>>)
      requires Valid()
      modifies this
      ensures Valid()
      ensures match NextBlock(old(Rest()))
              case None => r == None
              case Some((b, width)) =>
                && rawPosition == old(rawPosition) + width
                && r == Some(if old(Rest()) == [] then None else Some(b))
    {
      hide NextToken, Decode, Take, Holds, NextBlock;
      var encoded: Bytes := [];
      ghost var start := rawPosition;
      HoldsNothing(Rest());
      while |encoded| < DECODE_BLOCK
        invariant Valid() && start <= rawPosition && |encoded| <= DECODE_BLOCK
        invariant Holds(raw[start..], encoded, rawPosition - start)
        decreases DECODE_BLOCK - |encoded|
      {
        var more := Collect(encoded, start);
        if more.None? {
          return None;
        }
        if |more.value| == |encoded| {
          break;
        }
        encoded := more.value;
      }
      EndHolds(raw[start..], encoded, rawPosition - start);
      if encoded == [] {
        DecodeNothing();
        return Some(None);
      }
      var bytes := Decode(encoded);
      if bytes.None? {
        return None;
      }
      r := Some(Some(bytes.value));
    }
  }

  lemma HoldsNothing(rest: Bytes)
    ensures Holds(rest, [], 0)
  {
  }

  lemma DecodeNothing()
    ensures Decode([]) == Some([])
  {
  }

  // ----- checkpoints -----

  /** A place where decoding can start: the bytes before it are decoded by the text before it. */
  ghost predicate Splits(raw: Bytes, c: Checkpoint)
    requires DecodeText(raw).Some?
  {
    && c.raw <= |raw| && c.decoded <= |DecodeText(raw).value|
    && DecodeText(raw[c.raw..]) == Some(DecodeText(raw).value[c.decoded..])
  }

  /** The first checkpoint is the start, later ones lie strictly further on both sides. */
  ghost predicate Increasing(checkpoints: seq<Checkpoint>) {
    && checkpoints != [] && checkpoints[0] == Checkpoint(0, 0)
    && forall i :: 0 < i < |checkpoints| ==>
         && checkpoints[i - 1].raw < checkpoints[i].raw
         && checkpoints[i - 1].decoded < checkpoints[i].decoded
  }

  /** What scanning a payload promises about it. */
  ghost predicate Seekable(raw: Bytes, checkpoints: seq<Checkpoint>, len: nat) {
    && DecodeText(raw).Some? && len == |DecodeText(raw).value|
    && Increasing(checkpoints) && |checkpoints| <= MAX_STRIDES + 1
    && forall i :: 0 <= i < |checkpoints| ==> Splits(raw, checkpoints[i])
  }

  /** What is known half way: a part is decoded and the checkpoints lie within it. */
  ghost predicate Scanned(raw: Bytes, position: nat, done: Bytes, checkpoints: seq<Checkpoint>) {
    && position <= |raw|
    && DecodeText(raw) == Join(Some(done), DecodeText(raw[position..]))
    && Increasing(checkpoints)
    && forall i :: 0 <= i < |checkpoints| ==>
         && checkpoints[i].raw <= position && checkpoints[i].decoded <= |done|
         && DecodeText(raw) == Join(Some(done[..checkpoints[i].decoded]), DecodeText(raw[checkpoints[i].raw..]))
  }

  lemma ScanStart(raw: Bytes)
    ensures Scanned(raw, 0, [], [Checkpoint(0, 0)])
  {
    hide Unescape, Decode;
    assert raw[0..] == raw;
    JoinNothing(DecodeText(raw));
  }

  lemma JoinAssoc(a: Bytes, b: Bytes, c: Option<Bytes>)
    ensures Join(Some(a), Join(Some(b), c)) == Join(Some(a + b), c)
  {
    if c.Some? {
      assert a + (b + c.value) == (a + b) + c.value;
    }
  }

  lemma ScanBlock(raw: Bytes, position: nat, done: Bytes, checkpoints: seq<Checkpoint>)
    requires Scanned(raw, position, done, checkpoints) && position < |raw|
    ensures match NextBlock(raw[position..])
            case None => DecodeText(raw).None?
            case Some((b, width)) =>
              b != [] && 0 < width <= 6 * DECODE_BLOCK && Scanned(raw, position + width, done + b, checkpoints)
  {
    hide NextBlock, DecodeText;
    var rest := raw[position..];
    match NextBlock(rest)
    case None =>
      BlockFails(rest);
    case Some((b, width)) =>
      BlockSplits(rest);
      assert rest[width..] == raw[position + width..];
      JoinAssoc(done, b, DecodeText(raw[position + width..]));
      forall i | 0 <= i < |checkpoints|
        ensures (done + b)[..checkpoints[i].decoded] == done[..checkpoints[i].decoded]
      {
      }
  }

  lemma ScanMark(raw: Bytes, position: nat, done: Bytes, checkpoints: seq<Checkpoint>)
    requires Scanned(raw, position, done, checkpoints)
    requires checkpoints[|checkpoints| - 1].raw < position && checkpoints[|checkpoints| - 1].decoded < |done|
    ensures Scanned(raw, position, done, checkpoints + [Checkpoint(position, |done|)])
  {
    hide DecodeText;
    assert done[..|done|] == done;
  }

  lemma ScanEnd(raw: Bytes, done: Bytes, checkpoints: seq<Checkpoint>)
    requires Scanned(raw, |raw|, done, checkpoints)
    ensures DecodeText(raw) == Some(done) && Increasing(checkpoints)
    ensures forall i :: 0 <= i < |checkpoints| ==> Splits(raw, checkpoints[i])
  {
    UnescapeNothing(raw[|raw|..]);
    hide DecodeText;
    assert done + [] == done;
    forall i | 0 <= i < |checkpoints|
      ensures Splits(raw, checkpoints[i])
    {
      var c := checkpoints[i];
      var tail := DecodeText(raw[c.raw..]).value;
      assert (done[..c.decoded] + tail)[c.decoded..] == tail;
    }
  }

  /** Checkpoints a stride apart are few. */
  lemma FewStrides(len: nat, stride: nat, marks: nat)
    requires stride > 0 && stride * MAX_STRIDES >= len && marks * stride <= len
    ensures marks <= MAX_STRIDES
  {
    MulMonotone(MAX_STRIDES + 1, marks, stride);
  }

  /** The least length from a block on that divides the text into at most 4096 parts. */
  function Stride(len: nat): (stride: nat)
    ensures stride >= 65536 && stride * 4096 >= len
    ensures stride == 65536 || (stride - 1) * 4096 < len
  {
    var even := (len + MAX_STRIDES - 1) / MAX_STRIDES;
    if even < DECODE_BLOCK then DECODE_BLOCK else even
  }

  /** Neighbouring checkpoints are a stride apart and less than a stride and the longest block. */
  ghost predicate Spaced(checkpoints: seq<Checkpoint>, stride: nat) {
    forall i :: 0 < i < |checkpoints| ==>
      stride <= checkpoints[i].raw - checkpoints[i - 1].raw < stride + 6 * 65536
  }

  /** A payload of `len` bytes is marked out to its end. */
  ghost predicate Dense(checkpoints: seq<Checkpoint>, len: nat) {
    checkpoints != [] && Spaced(checkpoints, Stride(len)) && len < checkpoints[|checkpoints| - 1].raw + Stride(len)
  }

  /** Checkpoints are at least a stride apart, and the next one is due a stride after the last. */
  ghost predicate Marked(checkpoints: seq<Checkpoint>, position: nat, done: nat, stride: nat, next: nat) {
    && checkpoints != [] && Spaced(checkpoints, stride)
    && var last := checkpoints[|checkpoints| - 1];
       && position < next == last.raw + stride
       && last.decoded <= done && last.raw <= position && (last.decoded == done ==> last.raw == position)
       && (|checkpoints| - 1) * stride <= last.raw
  }

  lemma StrideMore(n: nat, stride: nat)
    ensures n * stride == (n - 1) * stride + stride
  {
  }

  lemma SpacedMore(checkpoints: seq<Checkpoint>, next: Checkpoint, stride: nat)
    requires checkpoints != [] && Spaced(checkpoints, stride)
    requires stride <= next.raw - checkpoints[|checkpoints| - 1].raw < stride + 6 * 65536
    ensures Spaced(checkpoints + [next], stride)
  {
  }

  lemma MarkMore(checkpoints: seq<Checkpoint>, position: nat, done: nat, stride: nat, next: nat, width: nat, more: nat)
    requires Marked(checkpoints, position, done, stride, next) && 0 < width <= 6 * DECODE_BLOCK && more > 0 && stride > 0
    ensures checkpoints[|checkpoints| - 1].raw < position + width && checkpoints[|checkpoints| - 1].decoded < done + more
    ensures position + width < next ==> Marked(checkpoints, position + width, done + more, stride, next)
    ensures position + width >= next ==>
              Marked(checkpoints + [Checkpoint(position + width, done + more)], position + width, done + more, stride,
                     position + width + stride)
  {
    hide Spaced;
    StrideMore(|checkpoints|, stride);
    if position + width >= next {
      SpacedMore(checkpoints, Checkpoint(position + width, done + more), stride);
    }
  }

  /** Decode a whole payload once, remembering where decoding may start again. */
  method Scan(raw: Bytes) returns (r: Option<(seq<Checkpoint>, nat)>)
    ensures r.Some? <==> DecodeText(raw).Some?
    ensures r.Some? ==> Seekable(raw, r.value.0, r.value.1)
    ensures r.Some? ==> Dense(r.value.0, |raw|)
  {
    hide NextBlock, DecodeText, Increasing, Scanned, Marked, Splits, Dense;
    var decoder := new Decoder(raw);
    var checkpoints := [Checkpoint(0, 0)];
    var stride := Stride(|raw|);
    var nextCheckpoint: nat := stride;
    var len: nat := 0;
    ghost var done: Bytes := [];
    ScanStart(raw);
    FirstMark(stride);
    while true
      invariant decoder.Valid() && decoder.raw == raw && fresh(decoder)
      invariant Scanned(raw, decoder.rawPosition, done, checkpoints) && len == |done|
      invariant Marked(checkpoints, decoder.rawPosition, len, stride, nextCheckpoint)
      decreases |raw| - decoder.rawPosition
    {
      ghost var position := decoder.rawPosition;
      if position < |raw| {
        ScanBlock(raw, position, done, checkpoints);
      } else {
        ScanEnd(raw, done, checkpoints);
      }
      BlockOfNothing();
      assert decoder.Rest() == raw[position..];
      assert position == |raw| ==> raw[position..] == [];
      var next := decoder.Next();
      if next.None? {
        assert NextBlock(raw[position..]).None?;
        return None;
      }
      if next.value.None? {
        break;
      }
      var bytes := next.value.value;
      MarkMore(checkpoints, position, len, stride, nextCheckpoint, decoder.rawPosition - position, |bytes|);
      len := len + |bytes|;
      done := done + bytes;
      if decoder.rawPosition >= nextCheckpoint {
        ScanMark(raw, decoder.rawPosition, done, checkpoints);
        checkpoints := checkpoints + [Checkpoint(decoder.rawPosition, len)];
        nextCheckpoint := decoder.rawPosition + stride;
      }
    }
    ScanEnd(raw, done, checkpoints);
    MarksFew(checkpoints, |raw|, len, stride, nextCheckpoint);
    r := Some((checkpoints, len));
  }

  lemma FirstMark(stride: nat)
    requires stride > 0
    ensures Marked([Checkpoint(0, 0)], 0, 0, stride, stride)
  {
  }

  lemma MarksFew(checkpoints: seq<Checkpoint>, len: nat, done: nat, stride: nat, next: nat)
    requires Marked(checkpoints, len, done, stride, next) && stride > 0 && stride * MAX_STRIDES >= len
    requires stride == Stride(len)
    ensures |checkpoints| <= MAX_STRIDES + 1 && Dense(checkpoints, len)
  {
    FewStrides(len, stride, |checkpoints| - 1);
  }

  lemma BlockOfNothing()
    ensures NextBlock([]) == Some(([], 0))
  {
  }

  // ----- reading a range -----

  /** The number of leading checkpoints at or before a decoded position. */
  method PartitionPoint(checkpoints: seq<Checkpoint>, offset: nat) returns (k: nat)
    requires Increasing(checkpoints)
    ensures 0 < k <= |checkpoints|
    ensures checkpoints[k - 1].decoded <= offset
    ensures k < |checkpoints| ==> offset < checkpoints[k].decoded
  {
    var low, high := 0, |checkpoints|;
    while low < high
      invariant 0 <= low <= high <= |checkpoints|
      invariant low > 0 ==> checkpoints[low - 1].decoded <= offset
      invariant high < |checkpoints| ==> offset < checkpoints[high].decoded
    {
      var mid := (low + high) / 2;
      if checkpoints[mid].decoded <= offset {
        low := mid + 1;
      } else {
        high := mid;
      }
    }
    k := low;
  }

  /** A range of the decoded bytes, delivered in pieces. */
  class DecodedStream {
    const decoder: Decoder
    var skip: nat
    var remaining: nat

    ghost predicate Valid()
      reads this, decoder
    {
      && decoder.Valid()
      && DecodeText(decoder.Rest()).Some?
      && skip + remaining <= |DecodeText(decoder.Rest()).value|
    }

    /** The bytes still to be delivered. */
    ghost function Left(): Bytes
      requires Valid()
      reads this, decoder
    {
      DecodeText(decoder.Rest()).value[skip..skip + remaining]
    }

    constructor (raw: Bytes, skip: nat, len: nat)
      requires DecodeText(raw).Some? && skip + len <= |DecodeText(raw).value|
      ensures Valid() && fresh(decoder)
      ensures Left() == DecodeText(raw).value[skip..skip + len]
    {
      decoder := new Decoder(raw);
      this.skip := skip;
      remaining := len;
      new;
      assert raw[0..] == raw;
    }

    /** The next piece, or nothing when everything has been delivered. */
    method Next() returns (piece: Option<Bytes>)
      requires Valid()
      modifies this, decoder
      ensures Valid()
      ensures piece.None? <==> old(remaining) == 0
      ensures piece.None? ==> old(Left()) == [] && Left() == []
      ensures piece.Some? ==> piece.value != [] && old(Left()) == piece.value + Left()
      ensures remaining < old(remaining) || old(remaining) == 0
    {
      hide DecodeText, NextBlock;
      ghost var left := Left();
      if remaining == 0 {
        return None;
      }
      while true
        invariant Valid() && remaining == old(remaining) && Left() == left
        decreases |decoder.raw| - decoder.rawPosition
      {
        ghost var rest := decoder.Rest();
        NextOfText(rest);
        var next := decoder.Next();
        ghost var (b, width) := NextBlock(rest).value;
        BlockSplits(rest);
        assert decoder.Rest() == rest[width..];
        var bytes := next.value.value;
        PieceOfText(b, DecodeText(decoder.Rest()).value, skip, remaining);
        if skip >= |bytes| {
          skip := skip - |bytes|;
          continue;
        }
        var count := if |bytes| - skip < remaining then |bytes| - skip else remaining;
        piece := Some(bytes[skip..skip + count]);
        skip := 0;
        remaining := remaining - count;
        return;
      }
    }
  }

  lemma NextOfText(rest: Bytes)
    requires DecodeText(rest).Some? && DecodeText(rest).value != []
    ensures rest != [] && NextBlock(rest).Some?
  {
    UnescapeNothing([]);
    if NextBlock(rest).None? {
      BlockFails(rest);
    }
  }

  /** Where a range of two joined pieces falls. */
  lemma PieceOfText(b: Bytes, tail: Bytes, skip: nat, remaining: nat)
    requires skip + remaining <= |b| + |tail|
    ensures skip >= |b| ==> (b + tail)[skip..skip + remaining] == tail[skip - |b|..skip - |b| + remaining]
    ensures skip + remaining <= |b| ==> (b + tail)[skip..skip + remaining] == b[skip..skip + remaining]
    ensures skip < |b| < skip + remaining ==>
              (b + tail)[skip..skip + remaining] == b[skip..] + tail[..skip + remaining - |b|]
  {
  }

  /** Opening a range at the checkpoint before it gives exactly that range of the payload. */
  method Stream(raw: Bytes, checkpoints: seq<Checkpoint>, total: nat, offset: nat, len: nat)
    returns (stream: DecodedStream)
    requires Seekable(raw, checkpoints, total) && offset + len <= total
    ensures stream.Valid() && fresh(stream) && fresh(stream.decoder)
    ensures stream.Left() == DecodeText(raw).value[offset..offset + len]
  {
    hide DecodeText;
    var k := PartitionPoint(checkpoints, offset);
    var c := checkpoints[k - 1];
    assert Splits(raw, c);
    stream := new DecodedStream(raw[c.raw..], offset - c.decoded, len);
  }

  /** Reading a stream to its end. */
  method Drain(stream: DecodedStream) returns (bytes: Bytes)
    requires stream.Valid()
    modifies stream, stream.decoder
    ensures bytes == old(stream.Left())
  {
    hide DecodeText;
    bytes := [];
    while true
      invariant stream.Valid()
      invariant bytes + stream.Left() == old(stream.Left())
      decreases stream.remaining
    {
      ghost var before, left := bytes, stream.Left();
      var piece := stream.Next();
      if piece.None? {
        break;
      }
      bytes := bytes + piece.value;
      assert (before + piece.value) + stream.Left() == before + left;
    }
    assert bytes + [] == bytes;
  }
}
