/** Reading a view through output buffers of any size, and collecting written content.
    Positional reads may be short, pending or failing at any moment.
    What is delivered is always the next stretch of the view. */
module ContentIo {
  import opened Wrappers
  import opened Octets

  const IO_CHUNK_SIZE: nat := 64 * 1024

  function Min(a: nat, b: nat): nat {
    if a < b then a else b
  }

  /** What the reads behind a view may do: none fails if it is reliable, none is pending if it is prompt. */
  datatype Medium = Medium(reliable: bool, prompt: bool)

  /** Positional read that retries short reads; fails at the end of the file. Reading nothing always succeeds. */
  method ReadExactAt(file: Bytes, offset: nat, length: nat, medium: Medium) returns (r: Option<Bytes>)
    ensures r.Some? && length > 0 ==> offset + length <= |file| && r.value == file[offset..offset + length]
    ensures length == 0 ==> r == Some([])
    ensures medium.reliable && offset + length <= |file| ==> r.Some?
  {
    var bytes: Bytes := [];
    while |bytes| < length
      invariant |bytes| <= length
      invariant bytes == [] || (offset + |bytes| <= |file| && bytes == file[offset..offset + |bytes|])
      decreases length - |bytes|
    {
      var at := offset + |bytes|;
      var failed: bool := *;
      if at >= |file| || (failed && !medium.reliable) {
        return None;
      }
      var short: nat := *;
      var read := 1 + short % Min(length - |bytes|, |file| - at);
      assert file[offset..at] + file[at..at + read] == file[offset..at + read];
      bytes := bytes + file[at..at + read];
    }
    r := Some(bytes);
  }

  datatype ReadState =
    | Streaming(rest: Bytes)      // another reader, with what it has still to deliver
    | InMemory(bytes: Bytes)
    | OnFile(file: Bytes, offset: nat, buffer: Bytes, consumed: nat)
    | Reading(file: Bytes, offset: nat, length: nat)
    | Failed

  datatype Poll = Ready(bytes: Bytes) | Pending | Error

  /** One poll of a streamed source: pending, failed, or the next bytes, none of them only at its end. */
  method PollStream(rest: Bytes, room: nat, medium: Medium) returns (r: Poll)
    requires room > 0 && rest != []
    ensures (medium.reliable ==> !r.Error?) && (medium.prompt ==> !r.Pending?)
    ensures r.Ready? ==> r.bytes != [] && |r.bytes| <= room && r.bytes <= rest
  {
    var outcome: nat, size: nat := *, *;
    if outcome % 3 == 0 && !medium.prompt {
      return Pending;
    }
    if outcome % 3 == 1 && !medium.reliable {
      return Error;
    }
    r := Ready(rest[..1 + size % Min(room, |rest|)]);
  }

  class ContentReader {
    ghost const view: Bytes
    const medium: Medium
    var state: ReadState
    var remaining: nat

    ghost predicate Valid()
      reads this
    {
      && remaining <= |view|
      && match state
         case Streaming(rest) => rest == view[|view| - remaining..]
         case InMemory(bytes) => bytes == view
         case OnFile(file, offset, buffer, consumed) =>
           && consumed <= |buffer| && |buffer| - consumed <= remaining
           && Tail(file, offset, buffer[consumed..])
         case Reading(file, offset, length) => 0 < length <= remaining && Tail(file, offset, [])
         case Failed => !medium.reliable
    }

    /** What is buffered, followed by the file, is what the reader has left to deliver. */
    ghost predicate Tail(file: Bytes, offset: nat, buffered: Bytes)
      requires |buffered| <= remaining <= |view|
      reads this
    {
      && offset + remaining - |buffered| <= |file|
      && buffered + file[offset..offset + remaining - |buffered|] == view[|view| - remaining..]
    }

    ghost function Left(): Bytes
      requires Valid()
      reads this
    {
      view[|view| - remaining..]
    }

    constructor Stream(bytes: Bytes, medium: Medium)
      ensures Valid() && Left() == bytes && this.medium == medium
    {
      view, this.medium := bytes, medium;
      state := Streaming(bytes);
      remaining := |bytes|;
    }

    constructor Memory(bytes: Bytes, medium: Medium)
      ensures Valid() && Left() == bytes && this.medium == medium
    {
      view, this.medium := bytes, medium;
      state := InMemory(bytes);
      remaining := |bytes|;
    }

    constructor File(file: Bytes, offset: nat, len: nat, medium: Medium)
      requires offset + len <= |file|
      ensures Valid() && Left() == file[offset..offset + len] && this.medium == medium
    {
      view, this.medium := file[offset..offset + len], medium;
      state := OnFile(file, offset, [], 0);
      remaining := len;
    }

    /** Hand over buffered bytes. */
    method Deliver(room: nat) returns (bytes: Bytes)
      requires Valid() && state.OnFile? && state.consumed < |state.buffer| && room > 0
      modifies this
      ensures Valid() && bytes != [] && |bytes| <= room && old(Left()) == bytes + Left()
    {
      var length := Min(room, |state.buffer| - state.consumed);
      bytes := state.buffer[state.consumed..state.consumed + length];
      ghost var buffered := state.buffer[state.consumed..];
      assert buffered == bytes + buffered[length..];
      ghost var left := Left();
      state := state.(consumed := state.consumed + length);
      remaining := remaining - length;
      assert state.buffer[state.consumed..] == buffered[length..];
      ghost var rest := state.file[state.offset..state.offset + remaining - |buffered[length..]|];
      assert left == (bytes + buffered[length..]) + rest;
      assert left == bytes + (buffered[length..] + rest);
      assert Left() == left[length..];
    }

    /** Ask for the next stretch of the file. */
    method StartRead(room: nat)
      requires Valid() && state.OnFile? && state.consumed == |state.buffer| && room > 0 && remaining > 0
      modifies this`state
      ensures Valid() && state.Reading?
    {
      assert state.buffer[state.consumed..] == [];
      state := Reading(state.file, state.offset, Min(IO_CHUNK_SIZE, Min(remaining, room)));
    }

    /** Take in the result of a read. */
    method FinishRead() returns (ok: bool)
      requires Valid() && state.Reading?
      modifies this`state
      ensures Valid()
      ensures if ok then state.OnFile? && state.consumed < |state.buffer| else state == Failed && !medium.reliable
    {
      var file, offset, length := state.file, state.offset, state.length;
      var read := ReadExactAt(file, offset, length, medium);
      ok := read.Some?;
      if ok {
        Refill(file, offset, length, remaining);
        assert read.value[0..] == read.value;
        state := OnFile(file, offset + length, read.value, 0);
      } else {
        state := Failed;
      }
    }

    /** Hand over bytes kept in memory. */
    method HandOut(room: nat) returns (bytes: Bytes)
      requires Valid() && state.InMemory? && room > 0 && remaining > 0
      modifies this`remaining
      ensures Valid() && bytes != [] && |bytes| <= room && old(Left()) == bytes + Left()
    {
      var offset := |state.bytes| - remaining;
      var length := Min(room, remaining);
      bytes := state.bytes[offset..offset + length];
      remaining := remaining - length;
      assert view[offset..] == view[offset..offset + length] + view[offset + length..];
    }

    /** Pass on what the streamed source has. */
    method Relay(room: nat) returns (r: Poll)
      requires Valid() && state.Streaming? && room > 0 && remaining > 0
      modifies this
      ensures Valid()
      ensures r.Ready? ==> r.bytes != [] && |r.bytes| <= room && old(Left()) == r.bytes + Left()
      ensures !r.Ready? ==> state == old(state) && remaining == old(remaining)
      ensures (medium.reliable ==> !r.Error?) && (medium.prompt ==> !r.Pending?)
    {
      var rest := state.rest;
      r := PollStream(rest, room, medium);
      if r.Ready? {
        state := Streaming(rest[|r.bytes|..]);
        remaining := remaining - |r.bytes|;
        assert rest == r.bytes + rest[|r.bytes|..];
      }
    }

    /** Bytes that do not exceed the room, in order and without gaps, however often the reads
        behind them are pending; nothing is ready only if nothing was asked for or nothing is left. Nothing fails and
        nothing is pending but the reads of a stream or a file, and those only as the medium has it. */
    method PollRead(room: nat) returns (r: Poll)
      requires Valid()
      modifies this
      ensures Valid()
      ensures match r
              case Ready(bytes) =>
                && |bytes| <= room && old(Left()) == bytes + Left()
                && (bytes == [] <==> room == 0 || old(remaining) == 0)
              case Pending => Left() == old(Left()) && remaining == old(remaining)
              case Error => (state == Failed || old(state).Streaming?) && Left() == old(Left()) && remaining == old(remaining)
      ensures r.Error? ==> !medium.reliable
      ensures r.Pending? ==> !medium.prompt && (state.Streaming? || state.Reading?)
      ensures room == 0 || old(state).InMemory? || (old(state).OnFile? && old(state).consumed < |old(state).buffer|) ==> r.Ready?
    {
      if room == 0 || remaining == 0 {
        return Ready([]);
      }
      while true
        invariant Valid() && remaining == old(remaining)
        invariant state.Streaming? ==> state == old(state)
        invariant old(state).InMemory? || (old(state).OnFile? && old(state).consumed < |old(state).buffer|) ==> state == old(state)
        decreases match state
                  case OnFile(_, _, buffer, consumed) => if consumed == |buffer| then 2 else 0
                  case Reading(_, _, _) => 1
                  case _ => 0
      {
        match state
        case Streaming(rest) =>
          r := Relay(room);
          return;
        case InMemory(_) =>
          var bytes := HandOut(room);
          return Ready(bytes);
        case OnFile(_, _, buffer, consumed) =>
          if consumed < |buffer| {
            var bytes := Deliver(room);
            return Ready(bytes);
          }
          StartRead(room);
        case Reading(_, _, _) =>
          var pending: bool := *;
          if pending && !medium.prompt {
            return Pending;
          }
          var ok := FinishRead();
          if !ok {
            return Error;
          }
        case Failed =>
          return Error;
      }
    }
  }

  lemma Refill(file: Bytes, offset: nat, length: nat, remaining: nat)
    requires length <= remaining && offset + remaining <= |file|
    ensures [] + file[offset..offset + remaining]
         == file[offset..offset + length] + file[offset + length..offset + length + (remaining - length)]
  {
  }

  // ----- writing -----

  /** Content of a size agreed beforehand, received in pieces. */
  class ContentWriter {
    const expectedLen: nat
    var buffer: Bytes
    var written: nat
    /** The pieces taken so far. */
    ghost var pieces: seq<Bytes>

    ghost predicate Valid()
      reads this
    {
      written == |buffer| <= expectedLen && buffer == Joined(pieces)
    }

    constructor (expectedLen: nat)
      ensures Valid() && this.expectedLen == expectedLen && pieces == []
    {
      this.expectedLen := expectedLen;
      buffer := [];
      written := 0;
      pieces := [];
    }

    /** Takes all of a piece or, when it does not fit, nothing of it. */
    method Write(bytes: Bytes) returns (ok: bool)
      requires Valid()
      modifies this`buffer, this`written, this`pieces
      ensures Valid()
      ensures ok <==> |old(Joined(pieces))| + |bytes| <= expectedLen
      ensures pieces == if ok then old(pieces) + [bytes] else old(pieces)
    {
      if |bytes| > expectedLen - written {
        return false;
      }
      var done := 0;
      while done < |bytes|
        invariant 0 <= done <= |bytes|
        invariant buffer == old(buffer) + bytes[..done] && written == |buffer| && pieces == old(pieces)
      {
        var end := Min(|bytes|, done + IO_CHUNK_SIZE);
        var chunk := bytes[done..end];
        assert bytes[..end] == bytes[..done] + chunk;
        buffer := buffer + chunk;
        written := written + |chunk|;
        done := end;
      }
      assert bytes[..done] == bytes;
      JoinedAppend(pieces, bytes);
      pieces := pieces + [bytes];
      ok := true;
    }

    /** Content is complete exactly when the pieces taken add up to the length agreed, and then it is those pieces. */
    method Finish() returns (r: Option<Bytes>)
      requires Valid()
      ensures r.Some? <==> TotalLength(pieces) == expectedLen
      ensures r.Some? ==> r.value == Joined(pieces)
    {
      JoinedLength(pieces);
      r := if written == expectedLen then Some(buffer) else None;
    }
  }

  ghost function Joined(pieces: seq<Bytes>): Bytes {
    if pieces == [] then [] else Joined(pieces[..|pieces| - 1]) + pieces[|pieces| - 1]
  }

  ghost function TotalLength(pieces: seq<Bytes>): nat {
    if pieces == [] then 0 else |pieces[0]| + TotalLength(pieces[1..])
  }

  lemma JoinedAppend(pieces: seq<Bytes>, bytes: Bytes)
    ensures Joined(pieces + [bytes]) == Joined(pieces) + bytes
  {
    assert (pieces + [bytes])[..|pieces|] == pieces;
  }

  lemma {:induction false} JoinedLength(pieces: seq<Bytes>)
    ensures |Joined(pieces)| == TotalLength(pieces)
  {
    if pieces != [] {
      var front := pieces[..|pieces| - 1];
      JoinedLength(front);
      TotalAppend(front, pieces[|pieces| - 1]);
      assert front + [pieces[|pieces| - 1]] == pieces;
    }
  }

  lemma {:induction false} TotalAppend(pieces: seq<Bytes>, bytes: Bytes)
    ensures TotalLength(pieces + [bytes]) == TotalLength(pieces) + |bytes|
  {
    if pieces != [] {
      TotalAppend(pieces[1..], bytes);
      assert (pieces + [bytes])[1..] == pieces[1..] + [bytes];
    }
  }

  /** Copying a view into a writer of its length, in pieces of any size, keeps it whole, and ends unless a read fails or is
      pending. */
  method CopyAll(reader: ContentReader, room: nat, writer: ContentWriter) returns (r: Option<Bytes>)
    requires reader.Valid() && writer.Valid() && writer.pieces == [] && room > 0
    requires writer.expectedLen == reader.remaining
    modifies reader, writer
    ensures reader.Valid() && writer.Valid() && Joined(writer.pieces) + reader.Left() == old(reader.Left())
    ensures r == if reader.remaining == 0 then Some(old(reader.Left())) else None
    ensures reader.medium == Medium(true, true) ==> r.Some?
  {
    ghost var view := reader.Left();
    assert [] + view == view;
    while reader.remaining > 0
      invariant reader.Valid() && writer.Valid()
      invariant Joined(writer.pieces) + reader.Left() == view
      invariant writer.expectedLen == |view|
      decreases reader.remaining
    {
      ghost var before := writer.pieces;
      ghost var left := reader.Left();
      var poll := reader.PollRead(room);
      if !poll.Ready? {
        return None;
      }
      var ok := writer.Write(poll.bytes);
      JoinedAppend(before, poll.bytes);
      Moved(Joined(before), poll.bytes, reader.Left(), left);
    }
    assert reader.Left() == [] && Joined(writer.pieces) + [] == Joined(writer.pieces);
    JoinedLength(writer.pieces);
    r := writer.Finish();
  }

  lemma Moved(before: Bytes, bytes: Bytes, rest: Bytes, left: Bytes)
    requires left == bytes + rest
    ensures (before + bytes) + rest == before + left
  {
  }
}
