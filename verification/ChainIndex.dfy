/** The block-index tables: one pinned state row, immutable blocks, and the canonical hash of each height. */
module ChainIndex {
  import opened Octets
  import opened Wrappers

  const HASH_LENGTH: nat := 48
  const ROOT_LENGTH: nat := 32
  const MAX_BATCH: nat := 256
  const CONSENSUS_DEPTH: nat := 50
  const MAX_SQL: nat := 0x7FFF_FFFF_FFFF_FFFF

  datatype Checkpoint = Checkpoint(height: nat, hash: Bytes)

  datatype Block = Block(height: nat, hash: Bytes, previous: Option<Bytes>, txRoot: Bytes, weave: nat)

  datatype IndexState = IndexState(start: nat, through: Option<nat>, checkpoint: Checkpoint, source: string)

  datatype Db = Db(state: Option<IndexState>, blocks: map<Bytes, Block>, canonical: map<nat, Bytes>) {
    predicate Stored(h: nat) {
      h in canonical && canonical[h] in blocks && blocks[canonical[h]].height == h
    }

    function At(h: nat): Block
      requires Stored(h)
    {
      blocks[canonical[h]]
    }
  }

  // ----- what every reachable database satisfies -----

  ghost predicate Linked(db: Db, h: nat)
    requires db.Stored(h) && db.Stored(h + 1)
  {
    db.At(h + 1).previous == Some(db.canonical[h]) && db.At(h).weave <= db.At(h + 1).weave
  }

  ghost predicate Covers(db: Db, start: nat, through: nat) {
    forall h :: (h in db.canonical) <==> (start <= h <= through)
  }

  ghost predicate Chained(db: Db, start: nat, through: nat) {
    && (forall h | start <= h <= through :: db.Stored(h))
    && (forall h | start <= h < through :: Linked(db, h))
  }

  ghost predicate PinAgrees(db: Db, pin: Checkpoint) {
    pin.height in db.canonical ==> db.canonical[pin.height] == pin.hash
  }

  /** What the columns of a stored block can hold. */
  ghost predicate BlockShape(b: Block) {
    && b.height <= MAX_SQL && |b.hash| == 48 && (|b.txRoot| == 0 || |b.txRoot| == 32)
    && (b.previous.Some? ==> |b.previous.value| == 48)
  }

  ghost predicate StateShape(s: IndexState) {
    && s.start <= s.checkpoint.height <= MAX_SQL && |s.checkpoint.hash| == 48
    && s.source != "" && '\0' !in s.source
  }

  ghost predicate Inv(db: Db) {
    && (forall hash :: hash in db.blocks ==> db.blocks[hash].hash == hash && BlockShape(db.blocks[hash]))
    && match db.state
       case None => db.canonical == map[]
       case Some(s) =>
         && StateShape(s)
         && PinAgrees(db, s.checkpoint)
         && match s.through
            case None => db.canonical == map[]
            case Some(t) =>
              && s.start <= t <= s.checkpoint.height + CONSENSUS_DEPTH
              && Covers(db, s.start, t) && Chained(db, s.start, t)
  }

  // ----- the operations as functions of the tables -----

  ghost predicate PinHolds(s: IndexState, pin: Checkpoint, source: string) {
    s.checkpoint == pin && s.source == source
  }

  predicate SourceOk(source: string) {
    source != "" && '\0' !in source
  }

  ghost function Initialize(db: Db, start: nat, pin: Checkpoint, source: string): Result<Db> {
    if start > MAX_SQL || pin.height > MAX_SQL || start > pin.height
       || |pin.hash| != HASH_LENGTH || !SourceOk(source) then
      Err
    else
      var row := if db.state.None? then IndexState(start, None, pin, source) else db.state.value;
      if row.start == start && PinHolds(row, pin, source) then Ok(db.(state := Some(row))) else Err
  }

  ghost function FirstHeight(s: IndexState): nat {
    match s.through case Some(t) => t + 1 case None => s.start
  }

  ghost predicate BlockOk(s: IndexState, height: nat, b: Block) {
    && b.height == height <= MAX_SQL
    && height <= s.checkpoint.height + CONSENSUS_DEPTH
    && |b.hash| == HASH_LENGTH
    && (b.previous.Some? ==> |b.previous.value| == HASH_LENGTH)
    && (|b.txRoot| == 0 || |b.txRoot| == ROOT_LENGTH)
    && (height == s.checkpoint.height ==> b.hash == s.checkpoint.hash)
  }

  ghost predicate Follows(p: Block, b: Block) {
    b.previous == Some(p.hash) && p.weave <= b.weave
  }

  /** The batch is a contiguous continuation of `predecessor`. */
  ghost predicate BatchOk(blocks: seq<Block>, s: IndexState, predecessor: Option<Block>) {
    && 1 <= |blocks| <= MAX_BATCH
    && (match predecessor case Some(p) => s.through == Some(p.height) case None => s.through.None?)
    && (forall i | 0 <= i < |blocks| :: BlockOk(s, FirstHeight(s) + i, blocks[i]))
    && (predecessor.Some? ==> Follows(predecessor.value, blocks[0]))
    && (forall i | 0 <= i < |blocks| - 1 :: Follows(blocks[i], blocks[i + 1]))
  }

  function Predecessor(db: Db): Option<Block>
    requires db.state.Some?
  {
    match db.state.value.through
    case Some(t) => if db.Stored(t) then Some(db.At(t)) else None
    case None => None
  }

  /** INSERT ... ON CONFLICT (hash) DO NOTHING, row by row. */
  ghost function Insert(blocks: map<Bytes, Block>, rows: seq<Block>): map<Bytes, Block> {
    if rows == [] then blocks
    else
      var last := rows[|rows| - 1];
      var before := Insert(blocks, rows[..|rows| - 1]);
      if last.hash in before then before else before[last.hash := last]
  }

  /** Every incoming row is the stored row of its hash. */
  ghost predicate Immutable(blocks: map<Bytes, Block>, rows: seq<Block>) {
    forall i | 0 <= i < |rows| :: rows[i].hash in blocks && blocks[rows[i].hash] == rows[i]
  }

  /** INSERT INTO canonical_blocks, row by row. */
  ghost function Canonicalize(canonical: map<nat, Bytes>, rows: seq<Block>): map<nat, Bytes> {
    if rows == [] then canonical
    else
      var last := rows[|rows| - 1];
      Canonicalize(canonical, rows[..|rows| - 1])[last.height := last.hash]
  }

  ghost predicate CommitOk(db: Db, rows: seq<Block>, pin: Checkpoint, source: string) {
    && db.state.Some? && PinHolds(db.state.value, pin, source)
    && (db.state.value.through.Some? ==> Predecessor(db).Some?)
    && BatchOk(rows, db.state.value, Predecessor(db))
    && Immutable(Insert(db.blocks, rows), rows)
    && (forall i | 0 <= i < |rows| :: rows[i].height !in db.canonical)
  }

  ghost function Commit(db: Db, rows: seq<Block>): Db
    requires db.state.Some? && rows != []
  {
    Db(Some(db.state.value.(through := Some(rows[|rows| - 1].height))),
       Insert(db.blocks, rows),
       Canonicalize(db.canonical, rows))
  }

  ghost predicate RewindOk(db: Db, ancestor: nat, pin: Checkpoint, source: string) {
    && db.state.Some? && PinHolds(db.state.value, pin, source)
    && pin.height <= ancestor <= MAX_SQL
    && db.state.value.through.Some? && ancestor <= db.state.value.through.value
  }

  ghost function Rewind(db: Db, ancestor: nat): Db
    requires db.state.Some?
  {
    Db(Some(db.state.value.(through := Some(ancestor))), db.blocks,
       map h | h in db.canonical && h <= ancestor :: db.canonical[h])
  }

  ghost predicate AdvanceOk(db: Db, previous: Checkpoint, next: Checkpoint, source: string) {
    && previous.height < next.height <= MAX_SQL && |next.hash| == HASH_LENGTH
    && db.state.Some? && PinHolds(db.state.value, previous, source)
  }

  ghost function Advance(db: Db, next: Checkpoint): Db
    requires db.state.Some?
  {
    db.(state := Some(db.state.value.(checkpoint := next)))
  }

  // ----- what the row inserts do -----

  lemma {:induction false} InsertKeeps(blocks: map<Bytes, Block>, rows: seq<Block>)
    ensures forall k :: k in blocks ==> k in Insert(blocks, rows) && Insert(blocks, rows)[k] == blocks[k]
    ensures forall k :: k in Insert(blocks, rows) && k !in blocks ==>
              exists i :: 0 <= i < |rows| && rows[i].hash == k && Insert(blocks, rows)[k] == rows[i]
  {
    if rows != [] {
      var front := rows[..|rows| - 1];
      InsertKeeps(blocks, front);
      forall k | k in Insert(blocks, rows) && k !in blocks
        ensures exists i :: 0 <= i < |rows| && rows[i].hash == k && Insert(blocks, rows)[k] == rows[i]
      {
        if k in Insert(blocks, front) {
          var i :| 0 <= i < |front| && front[i].hash == k && Insert(blocks, front)[k] == front[i];
          assert rows[i] == front[i];
        } else {
          assert rows[|rows| - 1].hash == k;
        }
      }
    }
  }

  /** Heights of a contiguous batch are covered one by one. */
  lemma {:induction false} CanonicalizeContiguous(canonical: map<nat, Bytes>, rows: seq<Block>, first: nat)
    requires forall i | 0 <= i < |rows| :: rows[i].height == first + i
    ensures forall h :: (h in Canonicalize(canonical, rows)) <==> (h in canonical || first <= h < first + |rows|)
    ensures forall i | 0 <= i < |rows| :: Canonicalize(canonical, rows)[first + i] == rows[i].hash
    ensures forall h :: h in canonical && !(first <= h < first + |rows|) ==>
              Canonicalize(canonical, rows)[h] == canonical[h]
  {
    if rows != [] {
      CanonicalizeContiguous(canonical, rows[..|rows| - 1], first);
    }
  }

  // ----- every operation keeps the invariant -----

  lemma InitializeKeeps(db: Db, start: nat, pin: Checkpoint, source: string)
    requires Inv(db) && Initialize(db, start, pin, source).Ok?
    ensures Inv(Initialize(db, start, pin, source).value)
  {
  }

  /** A commit stores its rows above the covered heights and leaves those as they were. */
  lemma CommitEffect(db: Db, rows: seq<Block>, pin: Checkpoint, source: string)
    requires Inv(db) && CommitOk(db, rows, pin, source)
    ensures forall i | 0 <= i < |rows| :: rows[i].height == FirstHeight(db.state.value) + i
    ensures forall i | 0 <= i < |rows| ::
              && Commit(db, rows).Stored(rows[i].height) && Commit(db, rows).At(rows[i].height) == rows[i]
              && Commit(db, rows).canonical[rows[i].height] == rows[i].hash
    ensures forall h | db.Stored(h) ::
              && Commit(db, rows).Stored(h) && Commit(db, rows).At(h) == db.At(h)
              && Commit(db, rows).canonical[h] == db.canonical[h]
    ensures forall h :: h in Commit(db, rows).canonical <==>
              h in db.canonical || FirstHeight(db.state.value) <= h < FirstHeight(db.state.value) + |rows|
  {
    var s := db.state.value;
    var first := FirstHeight(s);
    var d := Commit(db, rows);
    InsertKeeps(db.blocks, rows);
    forall i | 0 <= i < |rows|
      ensures rows[i].height == first + i
    {
      assert BlockOk(s, first + i, rows[i]);
    }
    CanonicalizeContiguous(db.canonical, rows, first);
    forall i | 0 <= i < |rows|
      ensures d.Stored(rows[i].height) && d.At(rows[i].height) == rows[i]
      ensures d.canonical[rows[i].height] == rows[i].hash
    {
      assert d.canonical[first + i] == rows[i].hash;
    }
    forall h: nat | db.Stored(h)
      ensures d.Stored(h) && d.At(h) == db.At(h) && d.canonical[h] == db.canonical[h]
    {
      assert d.canonical[h] == db.canonical[h];
    }
  }

  lemma CommitChains(db: Db, rows: seq<Block>, pin: Checkpoint, source: string)
    requires Inv(db) && CommitOk(db, rows, pin, source)
    ensures Chained(Commit(db, rows), db.state.value.start, FirstHeight(db.state.value) + |rows| - 1)
  {
    var s := db.state.value;
    var first := FirstHeight(s);
    var through := first + |rows| - 1;
    var d := Commit(db, rows);
    CommitEffect(db, rows, pin, source);
    forall h | s.start <= h <= through
      ensures d.Stored(h)
    {
      if h < first {
        assert db.Stored(h);
      } else {
        assert rows[h - first].height == h;
      }
    }
    forall h | s.start <= h < through
      ensures Linked(d, h)
    {
      if h + 1 < first {
        assert db.Stored(h) && db.Stored(h + 1) && Linked(db, h);
        assert d.At(h) == db.At(h) && d.At(h + 1) == db.At(h + 1);
      } else if h + 1 == first {
        assert db.Stored(h);
        assert Predecessor(db) == Some(db.At(h));
        assert rows[0].height == first;
      } else {
        var i := h - first;
        assert Follows(rows[i], rows[i + 1]);
        assert rows[i].height == h && rows[i + 1].height == h + 1;
      }
    }
  }

  lemma CommitKeeps(db: Db, rows: seq<Block>, pin: Checkpoint, source: string)
    requires Inv(db) && CommitOk(db, rows, pin, source)
    ensures Inv(Commit(db, rows))
  {
    var s := db.state.value;
    var first := FirstHeight(s);
    var d := Commit(db, rows);
    InsertKeeps(db.blocks, rows);
    CommitEffect(db, rows, pin, source);
    CommitChains(db, rows, pin, source);
    var through := first + |rows| - 1;
    assert BlockOk(s, first + (|rows| - 1), rows[|rows| - 1]);
    assert PinAgrees(d, s.checkpoint) by {
      var p := s.checkpoint.height;
      if p in db.canonical {
        assert db.Stored(p);
      } else if p in d.canonical {
        assert BlockOk(s, first + (p - first), rows[p - first]);
      }
    }
    assert Covers(d, s.start, through);
  }

  lemma RewindKeeps(db: Db, ancestor: nat, pin: Checkpoint, source: string)
    requires Inv(db) && RewindOk(db, ancestor, pin, source)
    ensures Inv(Rewind(db, ancestor))
  {
    var s := db.state.value;
    var d := Rewind(db, ancestor);
    assert Covers(d, s.start, ancestor);
    forall h | s.start <= h <= ancestor
      ensures d.Stored(h)
    {
      assert db.Stored(h);
    }
    forall h | s.start <= h < ancestor
      ensures Linked(d, h)
    {
      assert Linked(db, h);
    }
  }

  /** Advancing the pin is the one operation that does not look at the stored block of the
      new height: it keeps the invariant exactly when that block, if any, is the new pin. */
  lemma AdvanceKeepsIff(db: Db, previous: Checkpoint, next: Checkpoint, source: string)
    requires Inv(db) && AdvanceOk(db, previous, next, source)
    ensures Inv(Advance(db, next)) <==> PinAgrees(db, next)
  {
    var d := Advance(db, next);
    var s := db.state.value;
    if s.through.Some? {
      assert Covers(d, s.start, s.through.value) && Covers(db, s.start, s.through.value);
      forall h | s.start <= h <= s.through.value ensures d.Stored(h) { assert db.Stored(h); }
      forall h | s.start <= h < s.through.value ensures Linked(d, h) { assert Linked(db, h); }
      assert Chained(d, s.start, s.through.value);
    }
    if PinAgrees(db, next) {
      assert PinAgrees(d, next);
    } else {
      assert !PinAgrees(d, next);
    }
  }

  /** A database and an accepted pin that contradict each other. */
  lemma AdvanceCanContradict()
    ensures exists db: Db, previous: Checkpoint, next: Checkpoint, source: string ::
              Inv(db) && AdvanceOk(db, previous, next, source) && !Inv(Advance(db, next))
  {
    var a, b := seq(HASH_LENGTH, i => 1), seq(HASH_LENGTH, i => 2);
    assert a[0] != b[0];
    var pin := Checkpoint(0, a);
    var block0, block1 := Block(0, a, None, [], 0), Block(1, b, Some(a), [], 0);
    var db := Db(Some(IndexState(0, Some(1), pin, "node")), map[a := block0, b := block1], map[0 := a, 1 := b]);
    assert db.Stored(0) && db.Stored(1) && Linked(db, 0);
    assert Covers(db, 0, 1) && Chained(db, 0, 1);
    assert Inv(db);
    AdvanceKeepsIff(db, pin, Checkpoint(1, a), "node");
    assert AdvanceOk(db, pin, Checkpoint(1, a), "node");
  }

  // ----- whole runs -----

  datatype Call =
    | CallInitialize(start: nat, pin: Checkpoint, source: string)
    | CallCommit(rows: seq<Block>, pin: Checkpoint, source: string)
    | CallRewind(ancestor: nat, pin: Checkpoint, source: string)
    | CallAdvance(pin: Checkpoint, next: Checkpoint, source: string)

  /** A refused call leaves the tables alone. */
  ghost function Apply(db: Db, call: Call): Db {
    match call
    case CallInitialize(start, pin, source) =>
      (match Initialize(db, start, pin, source) case Ok(d) => d case Err => db)
    case CallCommit(rows, pin, source) => if CommitOk(db, rows, pin, source) then Commit(db, rows) else db
    case CallRewind(ancestor, pin, source) => if RewindOk(db, ancestor, pin, source) then Rewind(db, ancestor) else db
    case CallAdvance(pin, next, source) => if AdvanceOk(db, pin, next, source) then Advance(db, next) else db
  }

  /** The tables `calls` produce from `db`, when each accepted pin agrees with the block
      stored at its height. */
  ghost predicate Run(db: Db, calls: seq<Call>, d: Db)
    decreases |calls|
  {
    if calls == [] then d == db
    else
      && (calls[0].CallAdvance? ==> PinAgrees(db, calls[0].next))
      && Run(Apply(db, calls[0]), calls[1..], d)
  }

  lemma ApplyKeeps(db: Db, call: Call)
    requires Inv(db) && (call.CallAdvance? ==> PinAgrees(db, call.next))
    ensures Inv(Apply(db, call))
  {
    match call
    case CallInitialize(start, pin, source) =>
      if Initialize(db, start, pin, source).Ok? { InitializeKeeps(db, start, pin, source); }
    case CallCommit(rows, pin, source) =>
      if CommitOk(db, rows, pin, source) { CommitKeeps(db, rows, pin, source); }
    case CallRewind(ancestor, pin, source) =>
      if RewindOk(db, ancestor, pin, source) { RewindKeeps(db, ancestor, pin, source); }
    case CallAdvance(pin, next, source) =>
      if AdvanceOk(db, pin, next, source) { AdvanceKeepsIff(db, pin, next, source); }
  }

  /** Safety over every run from the empty tables. */
  lemma {:induction false} RunKeeps(db: Db, calls: seq<Call>, d: Db)
    requires Inv(db) && Run(db, calls, d)
    ensures Inv(d)
    decreases |calls|
  {
    if calls != [] {
      ApplyKeeps(db, calls[0]);
      RunKeeps(Apply(db, calls[0]), calls[1..], d);
    }
  }

  lemma EveryReachableIndexIsSound(calls: seq<Call>, d: Db)
    requires Run(Db(None, map[], map[]), calls, d)
    ensures Inv(d)
  {
    RunKeeps(Db(None, map[], map[]), calls, d);
  }

  // ----- finding the block of a weave offset -----

  /** A row of the offset query: `b` is canonical above the first height, `p` is its
      canonical predecessor, and the offset lies in `b`. */
  ghost predicate Hit(db: Db, offset: nat, p: Block, b: Block) {
    && db.state.Some? && db.state.value.through.Some?
    && b.hash in db.blocks && db.blocks[b.hash] == b
    && b.height in db.canonical && db.canonical[b.height] == b.hash
    && b.height > 0 && b.height - 1 in db.canonical && db.canonical[b.height - 1] in db.blocks
    && p == db.blocks[db.canonical[b.height - 1]] && p.height == b.height - 1
    && db.state.value.start < b.height <= db.state.value.through.value
    && b.previous == Some(p.hash) && p.weave < offset <= b.weave
  }

  /** `answer` is the first row by weave size and height, if there is one. */
  ghost predicate Answers(db: Db, offset: nat, answer: Option<(Block, Block)>) {
    match answer
    case None => offset == 0 || forall p, b :: !Hit(db, offset, p, b)
    case Some((p, b)) =>
      && offset > 0 && Hit(db, offset, p, b)
      && (forall p', b' :: Hit(db, offset, p', b') ==>
            b.weave < b'.weave || (b.weave == b'.weave && b.height <= b'.height))
  }

  lemma {:induction false} WeaveGrows(db: Db, start: nat, through: nat, g: nat, h: nat)
    requires Chained(db, start, through) && start <= g <= h <= through
    ensures db.At(g).weave <= db.At(h).weave
    decreases h
  {
    if g < h {
      WeaveGrows(db, start, through, g, h - 1);
      assert Linked(db, h - 1);
    }
  }

  lemma HitIsUnique(db: Db, offset: nat, p: Block, b: Block, p': Block, b': Block)
    requires Inv(db) && Hit(db, offset, p, b) && Hit(db, offset, p', b')
    ensures p == p' && b == b'
  {
    var s := db.state.value;
    if b.height < b'.height {
      WeaveGrows(db, s.start, s.through.value, b.height, b'.height - 1);
    } else if b'.height < b.height {
      WeaveGrows(db, s.start, s.through.value, b'.height, b.height - 1);
    }
  }

  lemma {:induction false} HitExists(db: Db, offset: nat, h: nat)
    requires Inv(db) && db.state.Some? && db.state.value.through.Some?
    requires db.state.value.start <= h <= db.state.value.through.value
    requires db.Stored(h) && db.Stored(db.state.value.start)
    requires db.At(db.state.value.start).weave < offset <= db.At(h).weave
    ensures exists p, b :: Hit(db, offset, p, b)
    decreases h
  {
    var s := db.state.value;
    assert h > s.start;
    assert db.Stored(h - 1) && Linked(db, h - 1);
    if db.At(h - 1).weave < offset {
      assert Hit(db, offset, db.At(h - 1), db.At(h));
    } else {
      HitExists(db, offset, h - 1);
    }
  }

  /** An answer is the one block whose weave interval holds the offset, and there is one
      exactly for the offsets between the first and the last covered block. */
  lemma OffsetLookupIsExact(db: Db, offset: nat, answer: Option<(Block, Block)>)
    requires Inv(db) && Answers(db, offset, answer)
    ensures answer.Some? ==> forall p, b :: Hit(db, offset, p, b) <==> answer.value == (p, b)
    ensures answer.Some? <==>
              && db.state.Some? && db.state.value.through.Some?
              && db.Stored(db.state.value.start) && db.Stored(db.state.value.through.value)
              && db.At(db.state.value.start).weave < offset <= db.At(db.state.value.through.value).weave
  {
    if answer.Some? {
      var (p, b) := answer.value;
      forall p', b' | Hit(db, offset, p', b')
        ensures p' == p && b' == b
      {
        HitIsUnique(db, offset, p, b, p', b');
      }
      var s := db.state.value;
      WeaveGrows(db, s.start, s.through.value, s.start, b.height - 1);
      WeaveGrows(db, s.start, s.through.value, b.height, s.through.value);
    } else if db.state.Some? && db.state.value.through.Some?
              && db.Stored(db.state.value.start) && db.Stored(db.state.value.through.value)
              && db.At(db.state.value.start).weave < offset <= db.At(db.state.value.through.value).weave {
      HitExists(db, offset, db.state.value.through.value);
    }
  }
}
