/** Views of stored content, and the descriptions from which cached views are restored. */
module Content {
  import opened Wrappers
  import opened Octets
  import opened Base64Text
  import opened JsonBase64

  const USIZE_MAX: nat := 0xffff_ffff_ffff_ffff

  /** The transaction a chunked source reads; only its size matters here. */
  datatype Geometry = Geometry(dataRoot: nat, dataSize: nat)

  /** `persistent` when the gateway that reads the chunks keeps them on disk. */
  datatype ChunkSource = ChunkSource(geometry: Geometry, persistent: bool)

  datatype Base64Data = Base64Data(encoded: Content, checkpoints: seq<Checkpoint>, len: nat)

  datatype Content =
    | Memory(bytes: Bytes)
    | File(file: Bytes, offset: nat, len: nat)
    | Stream(source: ChunkSource, offset: nat, len: nat)
    | Base64(data: Base64Data, offset: nat, len: nat)

  datatype CachedStream =
    | CachedRange(geometry: Geometry, offset: nat, len: nat)
    | CachedBase64(encoded: CachedStream, checkpoints: seq<Checkpoint>, decodedLen: nat, offset: nat, len: nat)

  /** The bytes of every transaction. */
  type World = Geometry -> Bytes

  function Len(c: Content): nat {
    if c.Memory? then |c.bytes| else c.len
  }

  ghost predicate WellFormed(c: Content, w: World)
    decreases c, 0
  {
    match c
    case Memory(bytes) => true
    case File(file, offset, len) => offset + len <= |file| <= USIZE_MAX
    case Stream(source, offset, len) =>
      |w(source.geometry)| == source.geometry.dataSize && offset + len <= source.geometry.dataSize <= USIZE_MAX
    case Base64(data, offset, len) =>
      && WellFormed(data.encoded, w)
      && Seekable(View(data.encoded, w), data.checkpoints, data.len)
      && offset + len <= data.len <= USIZE_MAX
  }

  /** The bytes a view is part of. */
  ghost function Whole(c: Content, w: World): Bytes
    requires WellFormed(c, w) && !c.Memory?
    decreases c, 1
  {
    match c
    case File(file, _, _) => file
    case Stream(source, _, _) => w(source.geometry)
    case Base64(data, _, _) => DecodeText(View(data.encoded, w)).value
  }

  /** The bytes a view stands for. */
  ghost function View(c: Content, w: World): (b: Bytes)
    requires WellFormed(c, w)
    ensures |b| == Len(c)
    decreases c, 2
  {
    if c.Memory? then c.bytes else Whole(c, w)[c.offset..c.offset + c.len]
  }

  // ----- slicing -----

  function CheckedAdd(a: nat, b: nat): Option<nat> {
    if a + b <= USIZE_MAX then Some(a + b) else None
  }

  function Slice(c: Content, start: nat, end: nat): Option<Content> {
    if !(start <= end <= Len(c)) then None
    else if c.Memory? then Some(Memory(c.bytes[start..end]))
    else
      match CheckedAdd(c.offset, start)
      case None => None
      case Some(offset) =>
        Some(match c
             case File(file, _, _) => File(file, offset, end - start)
             case Stream(source, _, _) => Stream(source, offset, end - start)
             case Base64(data, _, _) => Base64(data, offset, end - start))
  }

  /** A slice of a view is a view of the slice; only a range outside the view fails. */
  lemma SliceIsView(c: Content, w: World, start: nat, end: nat)
    requires WellFormed(c, w)
    ensures Slice(c, start, end).Some? <==> start <= end <= Len(c)
    ensures Slice(c, start, end).Some? ==>
              var part := Slice(c, start, end).value;
              WellFormed(part, w) && View(part, w) == View(c, w)[start..end]
  {
    hide DecodeText, Seekable;
    SliceFits(c, w, start, end);
    if !c.Memory? && start <= end <= Len(c) {
      SliceSource(c, w, start, end);
      hide Whole, WellFormed, Slice;
      SliceTwice(Whole(c, w), c.offset, c.len, start, end);
    }
  }

  lemma SliceFits(c: Content, w: World, start: nat, end: nat)
    requires WellFormed(c, w)
    ensures Slice(c, start, end).Some? <==> start <= end <= Len(c)
    ensures Slice(c, start, end).Some? ==>
              var part := Slice(c, start, end).value;
              && (c.Memory? <==> part.Memory?) && Len(part) == end - start
              && (!c.Memory? ==> part.offset == c.offset + start)
  {
    hide DecodeText, Seekable;
  }

  lemma SliceSource(c: Content, w: World, start: nat, end: nat)
    requires WellFormed(c, w) && !c.Memory? && Slice(c, start, end).Some?
    ensures var part := Slice(c, start, end).value;
            !part.Memory? && WellFormed(part, w) && Whole(part, w) == Whole(c, w) && c.offset + c.len <= |Whole(c, w)|
  {
    hide DecodeText;
  }

  lemma SliceTwice(b: Bytes, offset: nat, len: nat, start: nat, end: nat)
    requires offset + len <= |b| && start <= end <= len
    ensures b[offset..offset + len][start..end] == b[offset + start..offset + end]
  {
    var part := b[offset..offset + len];
    forall i | 0 <= i < end - start
      ensures part[start..end][i] == b[offset + start..offset + end][i]
    {
    }
    assert part[start..end] == b[offset + start..offset + end];
  }

  /** Slicing twice is slicing once. */
  lemma SliceOfSlice(c: Content, w: World, a: nat, b: nat, start: nat, end: nat)
    requires WellFormed(c, w) && a <= b <= Len(c) && start <= end <= b - a
    ensures Slice(c, a, b).Some? && Slice(Slice(c, a, b).value, start, end) == Slice(c, a + start, a + end)
  {
    if c.Memory? {
      assert c.bytes[a..b][start..end] == c.bytes[a + start..a + end];
    }
  }

  // ----- descriptions -----

  function Describe(c: Content): Option<CachedStream> {
    match c
    case Stream(source, offset, len) =>
      if source.persistent then Some(CachedRange(source.geometry, offset, len)) else None
    case Base64(data, offset, len) =>
      (match Describe(data.encoded)
       case None => None
       case Some(encoded) => Some(CachedBase64(encoded, data.checkpoints, data.len, offset, len)))
    case _ => None
  }

  /** What restoring demands of the checkpoints. */
  predicate CheckpointsAccepted(checkpoints: seq<Checkpoint>, rawLen: nat, decodedLen: nat) {
    && checkpoints != [] && checkpoints[0] == Checkpoint(0, 0)
    && |checkpoints| <= MAX_STRIDES + 1
    && (forall i :: 0 <= i < |checkpoints| - 1 ==>
          checkpoints[i].raw < checkpoints[i + 1].raw && checkpoints[i].decoded < checkpoints[i + 1].decoded)
    && (forall i :: 0 <= i < |checkpoints| ==> checkpoints[i].raw <= rawLen && checkpoints[i].decoded <= decodedLen)
  }

  function Restore(d: CachedStream, persistent: bool): Option<Content> {
    match d
    case CachedRange(geometry, offset, len) =>
      if geometry.dataSize > USIZE_MAX then None
      else if CheckedAdd(offset, len).None? || CheckedAdd(offset, len).value > geometry.dataSize then None
      else Slice(Stream(ChunkSource(geometry, persistent), 0, geometry.dataSize), offset, offset + len)
    case CachedBase64(encoded, checkpoints, decodedLen, offset, len) =>
      match Restore(encoded, persistent)
      case None => None
      case Some(inner) =>
        if !CheckpointsAccepted(checkpoints, Len(inner), decodedLen) then None
        else if CheckedAdd(offset, len).None? || CheckedAdd(offset, len).value > decodedLen then None
        else Slice(Base64(Base64Data(inner, checkpoints, decodedLen), 0, decodedLen), offset, offset + len)
  }

  /** What scanning found is what restoring demands. */
  lemma SeekableAccepted(raw: Bytes, checkpoints: seq<Checkpoint>, len: nat)
    requires Seekable(raw, checkpoints, len)
    ensures CheckpointsAccepted(checkpoints, |raw|, len)
  {
    hide DecodeText;
    forall i | 0 <= i < |checkpoints| - 1
      ensures checkpoints[i].raw < checkpoints[i + 1].raw && checkpoints[i].decoded < checkpoints[i + 1].decoded
    {
      assert checkpoints[(i + 1) - 1] == checkpoints[i];
    }
    forall i | 0 <= i < |checkpoints|
      ensures checkpoints[i].raw <= |raw| && checkpoints[i].decoded <= len
    {
      assert Splits(raw, checkpoints[i]);
    }
  }

  /** Every description of a well formed view is accepted, at any nesting, and stands for the same
      bytes; restored beside a disk cache it is the very same view. */
  lemma {:induction false} RestoreRoundTrip(c: Content, w: World, persistent: bool)
    requires WellFormed(c, w) && Describe(c).Some?
    ensures var r := Restore(Describe(c).value, persistent);
            && r.Some? && Len(r.value) == Len(c)
            && WellFormed(r.value, w) && View(r.value, w) == View(c, w)
            && (persistent ==> r.value == c)
    decreases c
  {
    hide DecodeText, Seekable, CheckpointsAccepted;
    if c.Base64? {
      RestoreRoundTrip(c.data.encoded, w, persistent);
      SeekableAccepted(View(c.data.encoded, w), c.data.checkpoints, c.data.len);
    }
  }

  /** Whatever is accepted is described again word for word, and a range outside its source never is. */
  lemma {:induction false} AcceptedIsDescribed(d: CachedStream)
    requires Restore(d, true).Some?
    ensures Describe(Restore(d, true).value) == Some(d)
    ensures d.offset + d.len <= if d.CachedRange? then d.geometry.dataSize else d.decodedLen
    ensures d.offset + d.len <= 0xffff_ffff_ffff_ffff && (d.CachedRange? ==> d.geometry.dataSize <= 0xffff_ffff_ffff_ffff)
    decreases d
  {
    if d.CachedBase64? {
      AcceptedIsDescribed(d.encoded);
    }
  }

  /** Accepted checkpoints start at the front, increase strictly on both sides and lie within the text and its payload. */
  lemma AcceptedIsOrdered(d: CachedStream, persistent: bool)
    requires d.CachedBase64? && Restore(d, persistent).Some?
    ensures Restore(d.encoded, persistent).Some? && 0 < |d.checkpoints| <= 4097
    ensures d.checkpoints[0].raw == d.checkpoints[0].decoded == 0
    ensures forall i, j :: 0 <= i < j < |d.checkpoints| ==>
              d.checkpoints[i].raw < d.checkpoints[j].raw && d.checkpoints[i].decoded < d.checkpoints[j].decoded
    ensures forall i :: 0 <= i < |d.checkpoints| ==>
              d.checkpoints[i].raw <= d.encoded.len && d.checkpoints[i].decoded <= d.decodedLen
  {
    AcceptedLength(d.encoded, persistent);
    forall i, j | 0 <= i < j < |d.checkpoints|
      ensures d.checkpoints[i].raw < d.checkpoints[j].raw && d.checkpoints[i].decoded < d.checkpoints[j].decoded
    {
      Ordered(d.checkpoints, i, j);
    }
  }

  lemma AcceptedLength(d: CachedStream, persistent: bool)
    requires Restore(d, persistent).Some?
    ensures Len(Restore(d, persistent).value) == d.len
  {
  }

  lemma {:induction false} Ordered(checkpoints: seq<Checkpoint>, i: nat, j: nat)
    requires i < j < |checkpoints|
    requires forall k :: 0 <= k < |checkpoints| - 1 ==>
               checkpoints[k].raw < checkpoints[k + 1].raw && checkpoints[k].decoded < checkpoints[k + 1].decoded
    ensures checkpoints[i].raw < checkpoints[j].raw && checkpoints[i].decoded < checkpoints[j].decoded
    decreases j
  {
    assert checkpoints[j - 1].raw < checkpoints[j - 1 + 1].raw;
    if i < j - 1 {
      Ordered(checkpoints, i, j - 1);
    }
  }

  /** The part of a transaction a description is backed by. */
  ghost function Backing(d: CachedStream): CachedStream {
    match d
    case CachedRange(_, _, _) => d
    case CachedBase64(encoded, _, _, _, _) => Backing(encoded)
  }

  /** A view depends on nothing but the bytes of its backing range. */
  lemma {:induction false} BackingSuffices(c: Content, w: World, v: World)
    requires WellFormed(c, w) && Describe(c).Some?
    requires var b := Backing(Describe(c).value);
             && b.CachedRange?
             && b.offset + b.len <= |w(b.geometry)| == |v(b.geometry)|
             && w(b.geometry)[b.offset..b.offset + b.len] == v(b.geometry)[b.offset..b.offset + b.len]
    ensures WellFormed(c, v) && View(c, v) == View(c, w)
    decreases c
  {
    hide DecodeText, Seekable;
    if c.Base64? {
      BackingSuffices(c.data.encoded, w, v);
    }
  }

  // ----- reading -----

  /** Read part of a view. */
  method ReadAt(c: Content, w: World, offset: nat, length: nat) returns (r: Option<Bytes>)
    requires WellFormed(c, w)
    ensures r.Some? <==> offset + length <= Len(c)
    ensures r.Some? ==> r.value == View(c, w)[offset..offset + length]
    decreases c
  {
    hide DecodeText, Seekable;
    SliceIsView(c, w, offset, offset + length);
    var view := Slice(c, offset, offset + length);
    match view
    case None =>
      r := None;
    case Some(Memory(bytes)) =>
      r := Some(bytes);
    case Some(File(file, start, len)) =>
      r := Some(file[start..start + len]);
    case Some(Stream(source, start, len)) =>
      r := Some(w(source.geometry)[start..start + len]);
    case Some(Base64(data, start, len)) =>
      var bytes := ReadEncoded(data, w, start, len);
      r := Some(bytes);
  }

  /** Encoded payloads are read from the checkpoint before the part that is wanted. */
  method ReadEncoded(data: Base64Data, w: World, start: nat, len: nat) returns (bytes: Bytes)
    requires WellFormed(data.encoded, w) && Seekable(View(data.encoded, w), data.checkpoints, data.len)
    requires start + len <= data.len
    ensures bytes == DecodeText(View(data.encoded, w)).value[start..start + len]
    decreases data
  {
    hide DecodeText, WellFormed, View;
    ghost var raw := View(data.encoded, w);
    var k := PartitionPoint(data.checkpoints, start);
    var checkpoint := data.checkpoints[k - 1];
    assert Splits(raw, checkpoint);
    var tail := ReadAt(data.encoded, w, checkpoint.raw, Len(data.encoded) - checkpoint.raw);
    assert tail.value == raw[checkpoint.raw..];
    SkipWithin(DecodeText(raw).value, checkpoint.decoded, start, len);
    var stream := new DecodedStream(tail.value, start - checkpoint.decoded, len);
    bytes := Drain(stream);
  }

  lemma SkipWithin(whole: Bytes, from: nat, start: nat, len: nat)
    requires from <= start && start + len <= |whole|
    ensures whole[from..][start - from..start - from + len] == whole[start..start + len]
  {
  }
}
