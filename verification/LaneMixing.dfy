/** The far mix of the packing replica: four scratchpads are dealt out in six-byte blocks
    onto four others.
    A copy may cross from one lane to the next on either side.
    The mix as a whole is a permutation of all bytes. */
module LaneMixing {
  import opened Arithmetic
  import opened Octets

  const LANES: nat := 4
  const BLOCK: nat := 6

  // ----- lanes as one flat range -----

  /** Position `i` of the lanes laid end to end, each `size` bytes long. */
  ghost function At(lanes: array2<byte>, i: nat): byte
    reads lanes
    requires lanes.Length0 == LANES && i < LANES * lanes.Length1
  {
    LaneOf(i, lanes.Length1);
    lanes[i / lanes.Length1, i % lanes.Length1]
  }

  lemma LaneOf(i: nat, size: nat)
    requires i < LANES * size
    ensures size > 0 && 0 <= i / size < LANES && 0 <= i % size < size
  {
    assert i == (i / size) * size + i % size;
    MulMonotone(LANES, i / size, size);
  }

  /** Moving inside one lane keeps the lane and adds to the offset. */
  lemma SameLane(i: nat, k: nat, size: nat)
    requires size > 0 && i % size + k < size
    ensures (i + k) / size == i / size && (i + k) % size == i % size + k
  {
    assert i + k == (i / size) * size + (i % size + k);
    DivUnique(i + k, size, i / size, i % size + k);
  }

  lemma SameCell(i: nat, j: nat, size: nat)
    requires size > 0 && i / size == j / size && i % size == j % size
    ensures i == j
  {
    assert i == (i / size) * size + i % size && j == (j / size) * size + j % size;
  }

  /** Copies `length` bytes from flat position `start` to flat position `output`, cut at
      every lane border on either side. */
  method CopyCrossLane(source: array2<byte>, destination: array2<byte>, start: nat, output: nat, length: nat)
    requires source != destination && source.Length0 == destination.Length0 == LANES
    requires source.Length1 == destination.Length1 > 0
    requires start + length <= LANES * source.Length1 && output + length <= LANES * destination.Length1
    modifies destination
    ensures forall i: nat | i < LANES * destination.Length1 ::
              At(destination, i) == if output <= i < output + length then At(source, start + (i - output))
                                    else old(At(destination, i))
  {
    var size := source.Length1;
    var from, to, left := start, output, length;
    while left > 0
      invariant from + left == start + length && to + left == output + length
      invariant from - start == to - output >= 0 && left >= 0
      invariant forall i: nat | i < LANES * size ::
                  At(destination, i) == if output <= i < to then At(source, start + (i - output))
                                        else old(At(destination, i))
      decreases left
    {
      var sourceLane, sourceOffset := from / size, from % size;
      var destinationLane, destinationOffset := to / size, to % size;
      LaneOf(from, size);
      LaneOf(to, size);
      var room := if size - sourceOffset < size - destinationOffset then size - sourceOffset else size - destinationOffset;
      var count := if left < room then left else room;
      CopyRun(source, destination, from, to, count);
      from, to, left := from + count, to + count, left - count;
    }
  }

  /** One `memcpy` that stays inside a lane on both sides. */
  method CopyRun(source: array2<byte>, destination: array2<byte>, from: nat, to: nat, count: nat)
    requires source != destination && source.Length0 == destination.Length0 == LANES
    requires source.Length1 == destination.Length1 > 0
    requires from < LANES * source.Length1 && to < LANES * source.Length1
    requires from % source.Length1 + count <= source.Length1 && to % source.Length1 + count <= source.Length1
    requires from + count <= LANES * source.Length1 && to + count <= LANES * source.Length1
    modifies destination
    ensures forall i: nat | i < LANES * destination.Length1 ::
              At(destination, i) == if to <= i < to + count then At(source, from + (i - to)) else old(At(destination, i))
  {
    var size := source.Length1;
    LaneOf(from, size);
    LaneOf(to, size);
    var sourceLane, sourceOffset := from / size, from % size;
    var destinationLane, destinationOffset := to / size, to % size;
    for k := 0 to count
      invariant forall i: nat | i < LANES * size ::
                  At(destination, i) == if to <= i < to + k then At(source, from + (i - to)) else old(At(destination, i))
    {
      SameLane(from, k, size);
      SameLane(to, k, size);
      label turn:
      destination[destinationLane, destinationOffset + k] := source[sourceLane, sourceOffset + k];
      forall i: nat | i < LANES * size
        ensures At(destination, i) == if i == to + k then At(source, from + k) else old@turn(At(destination, i))
      {
        LaneOf(i, size);
        if i / size == destinationLane && i % size == destinationOffset + k {
          SameCell(i, to + k, size);
        }
      }
    }
  }

  // ----- the far mix as a permutation -----

  /** A byte of the four lanes. */
  datatype Cell = Cell(lane: nat, offset: nat)

  ghost predicate InLanes(c: Cell, size: nat) {
    c.lane < LANES && c.offset < size
  }

  /** Where destination byte `o` comes from: the whole blocks are dealt out lane after lane,
      the short ends of the lanes follow. */
  ghost function Origin(o: nat, size: nat): Cell {
    var blocks, tail := size / BLOCK, size % BLOCK;
    if o < LANES * BLOCK * blocks then Cell(o % (LANES * BLOCK) / BLOCK, o / (LANES * BLOCK) * BLOCK + o % BLOCK)
    else
      var rest := o - LANES * BLOCK * blocks;
      if tail == 0 then Cell(0, 0) else Cell(rest / tail, BLOCK * blocks + rest % tail)
  }

  /** Where a source byte goes. */
  ghost function Image(c: Cell, size: nat): nat {
    var blocks, tail := size / BLOCK, size % BLOCK;
    if c.offset < BLOCK * blocks then LANES * BLOCK * (c.offset / BLOCK) + BLOCK * c.lane + c.offset % BLOCK
    else LANES * BLOCK * blocks + TailStart(c.lane, tail) + (c.offset - BLOCK * blocks)
  }

  ghost function TailStart(lane: nat, tail: nat): nat {
    if lane == 0 then 0 else tail + TailStart(lane - 1, tail)
  }

  lemma TailDivision(rest: nat, tail: nat)
    requires 0 < tail && rest < LANES * tail
    ensures rest / tail < LANES && rest % tail < tail
    ensures TailStart(rest / tail, tail) + rest % tail == rest
  {
    assert rest == (rest / tail) * tail + rest % tail;
    MulMonotone(LANES, rest / tail, tail);
    TailProduct(rest / tail, tail);
  }

  lemma {:induction false} TailProduct(lane: nat, tail: nat)
    ensures TailStart(lane, tail) == lane * tail
  {
    if lane > 0 {
      TailProduct(lane - 1, tail);
    }
  }

  /** Dealing in whole blocks: lane and offset come back from the position. */
  lemma Deal(block: nat, lane: nat, k: nat)
    requires lane < LANES && k < BLOCK
    ensures var o := LANES * BLOCK * block + BLOCK * lane + k;
            o % (LANES * BLOCK) / BLOCK == lane && o / (LANES * BLOCK) == block && o % BLOCK == k
  {
    DivUnique(LANES * BLOCK * block + BLOCK * lane + k, LANES * BLOCK, block, BLOCK * lane + k);
    DivUnique(BLOCK * lane + k, BLOCK, lane, k);
    DivUnique(LANES * BLOCK * block + BLOCK * lane + k, BLOCK, LANES * block + lane, k);
  }

  /** Every destination byte has one source byte, from which it is found again. */
  lemma OriginThenImage(o: nat, size: nat)
    requires o < LANES * size
    ensures InLanes(Origin(o, size), size) && Image(Origin(o, size), size) == o
  {
    var blocks, tail := size / BLOCK, size % BLOCK;
    if o >= LANES * BLOCK * blocks {
      TailDivision(o - LANES * BLOCK * blocks, tail);
    } else {
      var block, lane, k := o / (LANES * BLOCK), o % (LANES * BLOCK) / BLOCK, o % (LANES * BLOCK) % BLOCK;
      assert o == LANES * BLOCK * block + BLOCK * lane + k;
      BlockOrigin(block, lane, k, size);
      BlockImage(block, lane, k, size);
    }
  }

  lemma BlockOrigin(block: nat, lane: nat, k: nat, size: nat)
    requires block < size / BLOCK && lane < LANES && k < BLOCK
    ensures Origin(LANES * BLOCK * block + BLOCK * lane + k, size) == Cell(lane, BLOCK * block + k)
  {
    Deal(block, lane, k);
  }

  lemma BlockImage(block: nat, lane: nat, k: nat, size: nat)
    requires block < size / BLOCK && lane < LANES && k < BLOCK
    ensures InLanes(Cell(lane, BLOCK * block + k), size)
    ensures Image(Cell(lane, BLOCK * block + k), size) == LANES * BLOCK * block + BLOCK * lane + k
  {
    DivUnique(BLOCK * block + k, BLOCK, block, k);
  }

  lemma TailOrigin(lane: nat, k: nat, size: nat)
    requires lane < LANES && k < size % BLOCK
    ensures Origin(LANES * BLOCK * (size / BLOCK) + lane * (size % BLOCK) + k, size) == Cell(lane, BLOCK * (size / BLOCK) + k)
  {
    DivUnique(lane * (size % BLOCK) + k, size % BLOCK, lane, k);
  }

  /** Every source byte has one destination byte. */
  lemma ImageThenOrigin(c: Cell, size: nat)
    requires InLanes(c, size)
    ensures Image(c, size) < LANES * size && Origin(Image(c, size), size) == c
  {
    var blocks, tail := size / BLOCK, size % BLOCK;
    if c.offset < BLOCK * blocks {
      BlockOrigin(c.offset / BLOCK, c.lane, c.offset % BLOCK, size);
    } else {
      TailProduct(c.lane, tail);
      TailOrigin(c.lane, c.offset - BLOCK * blocks, size);
      MulMonotone(c.lane + 1, LANES, tail);
    }
  }

  /** Deals out all lanes: every destination byte is written, each with its own source byte. */
  method MixFar(source: array2<byte>, destination: array2<byte>)
    requires source != destination && source.Length0 == destination.Length0 == LANES
    requires source.Length1 == destination.Length1 > 0
    modifies destination
    ensures forall o: nat | o < LANES * destination.Length1 ::
              var c := Origin(o, source.Length1);
              InLanes(c, source.Length1) && At(destination, o) == source[c.lane, c.offset]
  {
    hide Origin, Dealt;
    var size := source.Length1;
    var blocks := size / BLOCK;
    var output := 0;
    NoneDealt(source, destination);
    for block := 0 to blocks
      invariant output == LANES * BLOCK * block
      invariant Dealt(source, destination, output)
    {
      for lane := 0 to LANES
        invariant output == LANES * BLOCK * block + BLOCK * lane
        invariant Dealt(source, destination, output)
      {
        BlockRun(block, lane, output, size);
        output := DealRun(source, destination, lane, block * BLOCK, output, BLOCK);
      }
    }
    for lane := 0 to LANES
      invariant output == LANES * BLOCK * blocks + lane * (size % BLOCK)
      invariant Dealt(source, destination, output)
    {
      TailRun(lane, output, size);
      output := DealRun(source, destination, lane, blocks * BLOCK, output, size % BLOCK);
    }
    AllDealt(source, destination, output);
  }

  /** A block of a lane is dealt to the next places. */
  lemma BlockRun(block: nat, lane: nat, output: nat, size: nat)
    requires lane < LANES && block < size / BLOCK && output == LANES * BLOCK * block + BLOCK * lane
    ensures output + BLOCK <= LANES * size && block * BLOCK + BLOCK <= size
    ensures forall o: nat | output <= o < output + BLOCK :: Origin(o, size) == Cell(lane, block * BLOCK + (o - output))
  {
    hide Origin;
    forall o: nat | output <= o < output + BLOCK
      ensures Origin(o, size) == Cell(lane, block * BLOCK + (o - output))
    {
      BlockOrigin(block, lane, o - output, size);
    }
  }

  /** What is left of a lane is dealt to the next places. */
  lemma TailRun(lane: nat, output: nat, size: nat)
    requires lane < LANES && output == LANES * BLOCK * (size / BLOCK) + lane * (size % BLOCK)
    ensures output + size % BLOCK <= LANES * size && size / BLOCK * BLOCK + size % BLOCK <= size
    ensures forall o: nat | output <= o < output + size % BLOCK ::
              Origin(o, size) == Cell(lane, size / BLOCK * BLOCK + (o - output))
  {
    hide Origin;
    forall o: nat | output <= o < output + size % BLOCK
      ensures Origin(o, size) == Cell(lane, size / BLOCK * BLOCK + (o - output))
    {
      TailOrigin(lane, o - output, size);
    }
    MulMonotone(lane + 1, LANES, size % BLOCK);
  }

  lemma NoneDealt(source: array2<byte>, destination: array2<byte>)
    requires source.Length0 == destination.Length0 == LANES && source.Length1 == destination.Length1
    ensures Dealt(source, destination, 0)
  {
  }

  lemma AllDealt(source: array2<byte>, destination: array2<byte>, output: nat)
    requires source.Length0 == destination.Length0 == LANES && source.Length1 == destination.Length1
    requires Dealt(source, destination, output)
    ensures forall o: nat | o < output && o < LANES * destination.Length1 ::
              var c := Origin(o, source.Length1);
              InLanes(c, source.Length1) && At(destination, o) == source[c.lane, c.offset]
  {
    hide Origin, At;
  }

  /** The first `output` destination bytes are in place. */
  ghost predicate Dealt(source: array2<byte>, destination: array2<byte>, output: nat)
    reads source, destination
    requires source.Length0 == destination.Length0 == LANES && source.Length1 == destination.Length1
  {
    output <= LANES * destination.Length1 &&
    forall o: nat | o < output ::
      var c := Origin(o, source.Length1);
      InLanes(c, source.Length1) && At(destination, o) == source[c.lane, c.offset]
  }

  /** One copy of the mix: `count` bytes of a lane to the next destination bytes. */
  method DealRun(source: array2<byte>, destination: array2<byte>, lane: nat, offset: nat, output: nat, count: nat)
    returns (next: nat)
    requires source != destination && source.Length0 == destination.Length0 == LANES
    requires source.Length1 == destination.Length1 > 0
    requires lane < LANES && offset + count <= source.Length1 && output + count <= LANES * source.Length1
    requires forall o: nat | output <= o < output + count :: Origin(o, source.Length1) == Cell(lane, offset + (o - output))
    requires Dealt(source, destination, output)
    modifies destination
    ensures next == output + count && Dealt(source, destination, next)
  {
    var size := source.Length1;
    MulMonotone(lane + 1, LANES, size);
    CopyCrossLane(source, destination, lane * size + offset, output, count);
    next := output + count;
    forall o: nat | output <= o < next
      ensures At(destination, o) == source[lane, offset + (o - output)]
    {
      DivUnique(lane * size + (offset + (o - output)), size, lane, offset + (o - output));
      assert lane * size + offset + (o - output) == lane * size + (offset + (o - output));
    }
  }
}
