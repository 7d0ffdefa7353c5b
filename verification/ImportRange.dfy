/** Importing a range of heights from a trusted node, through reorganizations. */
module ImportRange {
  import opened Wrappers
  import opened ChainIndex
  import opened Octets
  import opened ChainStore

  datatype Entry = Entry(hash: Bytes, txRoot: Bytes, weave: nat)

  /** What the node answers; fixed during one call. */
  datatype Node = Node(source: string, chain: seq<Entry>)

  datatype Summary = Summary(imported: nat, through: Option<nat>, pin: Checkpoint)

  // ----- hash linkage -----

  /** A block hash commits to the hash before it: `parent` is that commitment. */
  ghost predicate NodeLinked(node: Node, parent: Bytes -> Bytes) {
    && node.chain != [] && SourceOk(node.source)
    && forall h | 0 <= h < |node.chain| - 1 :: parent(node.chain[h + 1].hash) == node.chain[h].hash
  }

  ghost function Ancestor(parent: Bytes -> Bytes, hash: Bytes, steps: nat): Bytes
    decreases steps
  {
    if steps == 0 then hash else Ancestor(parent, parent(hash), steps - 1)
  }

  ghost predicate Authentic(blocks: map<Bytes, Block>, parent: Bytes -> Bytes) {
    forall k :: k in blocks && blocks[k].previous.Some? ==> blocks[k].previous.value == parent(k)
  }

  /** Stored heights up to the pin lie on the pin's ancestry. */
  ghost predicate Rooted(db: Db, parent: Bytes -> Bytes) {
    db.state.Some? ==>
      var pin := db.state.value.checkpoint;
      forall h :: h in db.canonical && h <= pin.height ==>
                    db.canonical[h] == Ancestor(parent, pin.hash, pin.height - h)
  }

  ghost predicate Trusted(db: Db, parent: Bytes -> Bytes) {
    Inv(db) && Authentic(db.blocks, parent) && Rooted(db, parent)
  }

  ghost predicate AgreesAt(db: Db, node: Node, h: nat) {
    h in db.canonical && h < |node.chain| && db.canonical[h] == node.chain[h].hash
  }

  ghost predicate AllAgree(db: Db, node: Node) {
    forall h :: h in db.canonical ==> AgreesAt(db, node, h)
  }

  lemma {:induction false} NodeAncestor(node: Node, parent: Bytes -> Bytes, h: nat, g: nat)
    requires NodeLinked(node, parent) && g <= h < |node.chain|
    ensures Ancestor(parent, node.chain[h].hash, h - g) == node.chain[g].hash
    decreases h
  {
    if g < h {
      assert parent(node.chain[h - 1 + 1].hash) == node.chain[h - 1].hash;
      NodeAncestor(node, parent, h - 1, g);
    }
  }

  /** Agreement at one stored height implies agreement at every stored height below. */
  lemma {:induction false} AgreementDescends(db: Db, node: Node, parent: Bytes -> Bytes, h: nat, g: nat)
    requires Inv(db) && Authentic(db.blocks, parent) && NodeLinked(node, parent)
    requires AgreesAt(db, node, h) && g in db.canonical && g <= h
    ensures AgreesAt(db, node, g)
    decreases h
  {
    if g < h {
      var s := db.state.value;
      assert s.start <= g <= h <= s.through.value;
      assert db.Stored(h - 1) && db.Stored(h - 1 + 1) && Linked(db, h - 1);
      assert parent(node.chain[h - 1 + 1].hash) == node.chain[h - 1].hash;
      AgreementDescends(db, node, parent, h - 1, g);
    }
  }

  /** A node that agrees with the pin agrees with everything stored up to it. */
  lemma PinAgreementDescends(db: Db, node: Node, parent: Bytes -> Bytes, g: nat)
    requires Trusted(db, parent) && NodeLinked(node, parent) && db.state.Some?
    requires db.state.value.checkpoint.height < |node.chain|
    requires node.chain[db.state.value.checkpoint.height].hash == db.state.value.checkpoint.hash
    requires g in db.canonical && g <= db.state.value.checkpoint.height
    ensures AgreesAt(db, node, g)
  {
    NodeAncestor(node, parent, db.state.value.checkpoint.height, g);
  }

  lemma AgreementRoots(db: Db, node: Node, parent: Bytes -> Bytes, pin: Checkpoint)
    requires Inv(db) && Authentic(db.blocks, parent) && NodeLinked(node, parent) && AllAgree(db, node)
    requires db.state.Some? && db.state.value.checkpoint == pin
    requires pin.height < |node.chain| && node.chain[pin.height].hash == pin.hash
    ensures Trusted(db, parent)
  {
    forall h | h in db.canonical && h <= pin.height
      ensures db.canonical[h] == Ancestor(parent, pin.hash, pin.height - h)
    {
      assert AgreesAt(db, node, h);
      NodeAncestor(node, parent, pin.height, h);
    }
  }

  // ----- when an import succeeds -----

  ghost predicate HashOk(node: Node, h: int) {
    0 <= h < |node.chain| && |node.chain[h].hash| == 48
  }

  ghost predicate EntryOk(node: Node, h: int) {
    HashOk(node, h) && (|node.chain[h].txRoot| == 0 || |node.chain[h].txRoot| == 32)
  }

  /** Above the pin and above everything on which store and node agree, the node reports a malformed hash. */
  ghost predicate Blocked(db: Db, node: Node) {
    && db.state.Some? && db.state.value.through.Some?
    && exists h :: BlockedAt(db, node, h)
  }

  ghost predicate BlockedAt(db: Db, node: Node, h: nat)
    requires db.state.Some? && db.state.value.through.Some?
  {
    && db.state.value.checkpoint.height < h <= db.state.value.through.value && h < |node.chain|
    && |node.chain[h].hash| != 48
    && forall g | h <= g <= db.state.value.through.value :: !AgreesAt(db, node, g)
  }

  /** The highest height up to `top` on which store and node agree. */
  ghost function Agreed(db: Db, node: Node, top: nat): nat {
    if AgreesAt(db, node, top) || top == 0 then top else Agreed(db, node, top - 1)
  }

  lemma {:induction false} AgreedIs(db: Db, node: Node, top: nat, h: nat)
    requires h <= top && AgreesAt(db, node, h) && forall g | h < g <= top :: !AgreesAt(db, node, g)
    ensures Agreed(db, node, top) == h
    decreases top
  {
    if h < top {
      AgreedIs(db, node, top - 1, h);
    }
  }

  /** The first height an import has to fetch. */
  ghost function FirstNew(db: Db, node: Node, start: nat): nat {
    if db.state.Some? && db.state.value.through.Some? then Agreed(db, node, db.state.value.through.value) + 1 else start
  }

  /** A block of the node as it is stored; the first of the index has no predecessor. */
  ghost function RowOf(node: Node, start: nat, h: nat): Block
    requires h < |node.chain|
  {
    Block(h, node.chain[h].hash, if h == 0 || h == start then None else Some(node.chain[h - 1].hash),
          node.chain[h].txRoot, node.chain[h].weave)
  }

  /** No block to come is stored already as something else, and no two have one hash. */
  ghost predicate Fresh(blocks: map<Bytes, Block>, node: Node, start: nat, first: nat, end: nat)
    requires end < |node.chain|
  {
    && (forall h | first <= h <= end && node.chain[h].hash in blocks :: blocks[node.chain[h].hash] == RowOf(node, start, h))
    && (forall g, h | first <= g < h <= end :: node.chain[g].hash != node.chain[h].hash)
  }

  /** The node's chain from the last stored block on is well formed and new. */
  ghost predicate Extensible(db: Db, node: Node, start: nat, first: nat, end: nat) {
    && end < |node.chain| && end <= MAX_SQL
    && (forall h | (if first > start then first - 1 else first) <= h <= end :: EntryOk(node, h))
    && (forall h | (if first > start then first - 1 else first) < h <= end :: node.chain[h - 1].weave <= node.chain[h].weave)
    && (first > start ==> db.Stored(first - 1) && (first <= end ==> db.At(first - 1).weave <= node.chain[first].weave))
    && Fresh(db.blocks, node, start, first, end)
  }

  /** The range lies on a chain with a stable height, the index is of this node and start, its pin is still there and
      stable, the walk down to agreement meets no malformed hash, and the rest of the chain can be stored. */
  ghost predicate Importable(db: Db, node: Node, start: nat, end: nat) {
    var coverage := if start == 0 then 0 else start - 1;
    var stable := |node.chain| - 51;
    && start <= end < |node.chain| && coverage <= stable <= MAX_SQL
    && HashOk(node, |node.chain| - 1) && HashOk(node, stable)
    && (db.state.Some? ==>
          var s := db.state.value;
          && s.start == coverage && s.source == node.source && s.checkpoint.height <= stable
          && node.chain[s.checkpoint.height].hash == s.checkpoint.hash && !Blocked(db, node))
    && (FirstNew(db, node, coverage) <= end ==> Extensible(db, node, coverage, FirstNew(db, node, coverage), end))
  }

  // ----- the calls to the node -----

  function ReadCheckpoint(node: Node, height: nat): Result<Checkpoint> {
    if height < |node.chain| && |node.chain[height].hash| == HASH_LENGTH
    then Ok(Checkpoint(height, node.chain[height].hash))
    else Err
  }

  predicate VerifyCheckpoint(node: Node, pin: Checkpoint) {
    ReadCheckpoint(node, pin.height) == Ok(pin)
  }

  /** The entries are well formed, their weave does not shrink, and the pinned one is the pin. */
  ghost predicate Fetchable(node: Node, from: nat, to: nat, pin: Checkpoint) {
    && to < |node.chain|
    && (forall h | from <= h <= to :: EntryOk(node, h))
    && (forall h | from < h <= to :: node.chain[h - 1].weave <= node.chain[h].weave)
    && (from <= pin.height <= to ==> node.chain[pin.height].hash == pin.hash)
  }

  /** The blocks of `from..=to` as the node reports them, each linked to the one before. */
  method FetchBatch(node: Node, from: nat, to: nat, pin: Checkpoint) returns (r: Result<seq<Block>>)
    requires from <= to
    ensures r.Ok? <==> Fetchable(node, from, to, pin)
    ensures r.Ok? ==> to < |node.chain| && |r.value| == to - from + 1
    ensures r.Ok? ==> forall i | 0 <= i < |r.value| ::
              r.value[i] == Block(from + i, node.chain[from + i].hash,
                                  if i == 0 then None else Some(node.chain[from + i - 1].hash),
                                  node.chain[from + i].txRoot, node.chain[from + i].weave)
  {
    if to >= |node.chain| {
      return Err;
    }
    var blocks: seq<Block> := [];
    for h := from to to + 1
      invariant |blocks| == h - from
      invariant forall g | from <= g < h :: EntryOk(node, g)
      invariant forall g | from < g < h :: node.chain[g - 1].weave <= node.chain[g].weave
      invariant from <= pin.height < h ==> node.chain[pin.height].hash == pin.hash
      invariant forall i | 0 <= i < |blocks| ::
                  blocks[i] == Block(from + i, node.chain[from + i].hash,
                                     if i == 0 then None else Some(node.chain[from + i - 1].hash),
                                     node.chain[from + i].txRoot, node.chain[from + i].weave)
    {
      var entry := node.chain[h];
      if |entry.hash| != HASH_LENGTH || (|entry.txRoot| != 0 && |entry.txRoot| != ROOT_LENGTH) {
        assert !EntryOk(node, h);
        return Err;
      }
      if blocks != [] && entry.weave < blocks[|blocks| - 1].weave {
        return Err;
      }
      if h == pin.height && entry.hash != pin.hash {
        return Err;
      }
      var previous := if blocks == [] then None else Some(blocks[|blocks| - 1].hash);
      blocks := blocks + [Block(h, entry.hash, previous, entry.txRoot, entry.weave)];
    }
    r := Ok(blocks);
  }

  lemma StoredHash(db: Db, h: nat)
    requires Inv(db) && h in db.canonical
    ensures |db.canonical[h]| == 48 && db.Stored(h)
  {
    assert db.Stored(h);
  }

  /** Walks down from the top until the store and the node agree. */
  method FindAncestor(store: BlockStore, node: Node, through: nat, pin: Checkpoint) returns (r: Result<nat>)
    requires store.Valid() && store.state.Some? && store.state.value.checkpoint == pin
    requires store.state.value.through == Some(through) && pin.height < through && pin.height < |node.chain|
    requires VerifyCheckpoint(node, pin)
    ensures r.Ok? ==>
              && pin.height <= r.value <= through && AgreesAt(store.View(), node, r.value)
              && forall h | r.value < h <= through :: !AgreesAt(store.View(), node, h)
    ensures r.Err? <==> Blocked(store.View(), node)
  {
    var ancestor := if through < |node.chain| - 1 then through else |node.chain| - 1;
    assert AgreesAt(store.View(), node, pin.height);
    while true
      invariant pin.height <= ancestor <= through && ancestor < |node.chain|
      invariant forall h | ancestor < h <= through :: !AgreesAt(store.View(), node, h)
      invariant forall h | ancestor < h <= through && h < |node.chain| :: |node.chain[h].hash| == HASH_LENGTH
      decreases ancestor
    {
      var remote := ReadCheckpoint(node, ancestor);
      if remote.Err? {
        StoredHash(store.View(), ancestor);
        assert BlockedAt(store.View(), node, ancestor);
        return Err;
      }
      if ancestor in store.canonical && store.canonical[ancestor] == remote.value.hash {
        return Ok(ancestor);
      }
      if ancestor <= pin.height {
        return Err;
      }
      ancestor := ancestor - 1;
    }
  }

  // ----- the import -----

  /** No block on which store and node agree is dropped, and nothing up to the old pin. */
  ghost predicate Retains(old_: Db, db: Db, node: Node) {
    && (forall h :: AgreesAt(old_, node, h) ==> AgreesAt(db, node, h))
    && (old_.state.Some? ==>
          && db.state.Some? && old_.state.value.checkpoint.height <= db.state.value.checkpoint.height
          && forall h :: h in old_.canonical && h <= old_.state.value.checkpoint.height ==>
                           h in db.canonical && db.canonical[h] == old_.canonical[h])
  }

  lemma RewindRetains(db: Db, node: Node, parent: Bytes -> Bytes, ancestor: nat)
    requires Trusted(db, parent) && NodeLinked(node, parent)
    requires db.state.Some? && RewindOk(db, ancestor, db.state.value.checkpoint, db.state.value.source)
    requires AgreesAt(db, node, ancestor)
    requires forall h | ancestor < h <= db.state.value.through.value :: !AgreesAt(db, node, h)
    ensures Inv(Rewind(db, ancestor)) && Trusted(Rewind(db, ancestor), parent)
    ensures AllAgree(Rewind(db, ancestor), node) && Retains(db, Rewind(db, ancestor), node)
  {
    RewindKeeps(db, ancestor, db.state.value.checkpoint, db.state.value.source);
    forall h | h in Rewind(db, ancestor).canonical
      ensures AgreesAt(Rewind(db, ancestor), node, h)
    {
      AgreementDescends(db, node, parent, ancestor, h);
    }
  }

  /** Removes the stored blocks above the highest one on which store and node agree. */
  method CutBack(store: BlockStore, node: Node, ghost parent: Bytes -> Bytes) returns (ok: bool)
    requires store.Valid() && Trusted(store.View(), parent) && NodeLinked(node, parent)
    requires store.state.Some? && store.state.value.source == node.source
    requires VerifyCheckpoint(node, store.state.value.checkpoint)
    modifies store
    ensures store.Valid() && Trusted(store.View(), parent)
    ensures Retains(old(store.View()), store.View(), node)
    ensures store.state.Some? && store.state.value.start == old(store.state.value.start)
            && store.state.value.source == node.source && store.state.value.checkpoint == old(store.state.value.checkpoint)
    ensures ok ==> AllAgree(store.View(), node)
    ensures forall h :: h in store.canonical ==> h in old(store.canonical) && store.canonical[h] == old(store.canonical)[h]
    ensures ok <==> !Blocked(old(store.View()), node)
    ensures store.blocks == old(store.blocks)
    ensures ok ==> FirstHeight(store.state.value) == FirstNew(old(store.View()), node, store.state.value.start)
    ensures ok ==> (store.state.value.through.Some? <==> old(store.state.value.through.Some?))
  {
    var pin := store.state.value.checkpoint;
    if store.state.value.through.Some? && store.state.value.through.value > pin.height {
      var through := store.state.value.through.value;
      var found := FindAncestor(store, node, through, pin);
      if found.Err? {
        return false;
      }
      AgreedIs(store.View(), node, through, found.value);
      if found.value < through {
        StoredHash(store.View(), found.value);
        if found.value > MAX_SQL {
          return false;
        }
        RewindRetains(store.View(), node, parent, found.value);
        var done := store.RewindTo(found.value, pin, node.source);
        assert done;
      } else {
        forall h | h in store.canonical
          ensures AgreesAt(store.View(), node, h)
        {
          AgreementDescends(store.View(), node, parent, through, h);
        }
      }
    } else {
      forall h | h in store.canonical
        ensures AgreesAt(store.View(), node, h)
      {
        PinAgreementDescends(store.View(), node, parent, h);
      }
      if store.state.value.through.Some? {
        AgreedIs(store.View(), node, store.state.value.through.value, store.state.value.through.value);
      }
    }
    ok := true;
  }

  /** The pin is still on the node's chain and stable, the walk down can be made, and the stable block can be pinned. */
  ghost predicate ReconcileOk(db: Db, node: Node)
    requires db.state.Some?
  {
    var stable := |node.chain| - 51;
    var pin := db.state.value.checkpoint;
    && pin.height <= stable <= MAX_SQL && HashOk(node, stable)
    && node.chain[pin.height].hash == pin.hash && !Blocked(db, node)
  }

  /** Brings an existing index to a state the node agrees with, then moves the pin. */
  method Reconcile(store: BlockStore, node: Node, ghost parent: Bytes -> Bytes) returns (r: Result<Checkpoint>)
    requires store.Valid() && Trusted(store.View(), parent) && NodeLinked(node, parent)
    requires store.state.Some? && store.state.value.source == node.source
    requires |node.chain| > CONSENSUS_DEPTH
    modifies store
    ensures store.Valid() && Trusted(store.View(), parent)
    ensures Retains(old(store.View()), store.View(), node)
    ensures store.state.Some? && store.state.value.start == old(store.state.value.start)
            && store.state.value.source == node.source
    ensures r.Ok? ==>
              && AllAgree(store.View(), node) && r.value == store.state.value.checkpoint
              && VerifyCheckpoint(node, r.value)
    ensures forall h :: h in store.canonical ==> h in old(store.canonical) && store.canonical[h] == old(store.canonical)[h]
    ensures r.Ok? ==> forall h :: h in store.canonical <==> AgreesAt(old(store.View()), node, h)
    ensures r.Ok? ==> r.value == Checkpoint(|node.chain| - 51, node.chain[|node.chain| - 51].hash)
    ensures r.Ok? ==> FirstHeight(store.state.value) == FirstNew(old(store.View()), node, store.state.value.start)
    ensures r.Ok? ==> (store.state.value.through.Some? <==> old(store.state.value.through.Some?))
    ensures store.blocks == old(store.blocks)
    ensures r.Ok? <==> ReconcileOk(old(store.View()), node)
  {
    var stable := |node.chain| - 1 - CONSENSUS_DEPTH;
    var pin := store.state.value.checkpoint;
    if pin.height > stable || !VerifyCheckpoint(node, pin) {
      return Err;
    }
    var cut := CutBack(store, node, parent);
    if !cut {
      return Err;
    }
    if stable <= pin.height {
      return Ok(pin);
    }
    var next := ReadCheckpoint(node, stable);
    if next.Err? {
      return Err;
    }
    ghost var before := store.View();
    assert AllAgree(before, node);
    var ok := store.AdvanceCheckpoint(pin, next.value, node.source);
    if !ok {
      return Err;
    }
    forall h | h in store.canonical
      ensures AgreesAt(store.View(), node, h)
    {
      assert AgreesAt(before, node, h);
    }
    AgreementRoots(store.View(), node, parent, next.value);
    r := next;
  }

  /** A committed continuation read from the node leaves store and node in agreement. */
  lemma CommitAgrees(db: Db, rows: seq<Block>, node: Node, parent: Bytes -> Bytes, pin: Checkpoint, first: nat)
    requires Trusted(db, parent) && NodeLinked(node, parent) && AllAgree(db, node)
    requires CommitOk(db, rows, pin, node.source) && VerifyCheckpoint(node, pin)
    requires first == FirstHeight(db.state.value) && first + |rows| <= |node.chain|
    requires forall i | 0 <= i < |rows| ::
               && rows[i].hash == node.chain[first + i].hash
               && (rows[i].previous.Some? ==> first + i > 0 && rows[i].previous.value == node.chain[first + i - 1].hash)
    ensures Inv(Commit(db, rows)) && Trusted(Commit(db, rows), parent) && AllAgree(Commit(db, rows), node)
    ensures Retains(db, Commit(db, rows), node)
  {
    var d := Commit(db, rows);
    CommitKeeps(db, rows, pin, node.source);
    CommitEffect(db, rows, pin, node.source);
    RowsAuthentic(db, rows, node, parent, pin, first);
    hide Inv, Commit, NodeLinked, CommitOk;
    forall h | h in d.canonical
      ensures AgreesAt(d, node, h)
    {
      if h in db.canonical {
        assert AgreesAt(db, node, h);
        StoredAt(db, h);
      } else {
        assert rows[h - first].height == h;
      }
    }
    AgreementRoots(d, node, parent, pin);
  }

  lemma StoredAt(db: Db, h: nat)
    requires Inv(db) && h in db.canonical
    ensures db.Stored(h)
  {
  }

  /** Rows that follow the node's chain have the parents their hashes stand for. */
  lemma RowsAuthentic(db: Db, rows: seq<Block>, node: Node, parent: Bytes -> Bytes, pin: Checkpoint, first: nat)
    requires Trusted(db, parent) && NodeLinked(node, parent) && CommitOk(db, rows, pin, node.source)
    requires first + |rows| <= |node.chain|
    requires forall i | 0 <= i < |rows| ::
               && rows[i].hash == node.chain[first + i].hash
               && (rows[i].previous.Some? ==> first + i > 0 && rows[i].previous.value == node.chain[first + i - 1].hash)
    ensures Authentic(Commit(db, rows).blocks, parent)
  {
    InsertKeeps(db.blocks, rows);
    assert rows != [];
    hide Inv, Insert, BatchOk;
    var blocks := Commit(db, rows).blocks;
    forall k | k in blocks && blocks[k].previous.Some?
      ensures blocks[k].previous.value == parent(k)
    {
      if k !in db.blocks {
        var i :| 0 <= i < |rows| && rows[i].hash == k && blocks[k] == rows[i];
        assert parent(node.chain[first + i - 1 + 1].hash) == node.chain[first + i - 1].hash;
      }
    }
  }

  /** Dropping the overlapping entry leaves the rows of the new heights. */
  lemma BatchRows(fetched: seq<Block>, rows: seq<Block>, node: Node, from: nat, skip: nat, next: nat)
    requires skip <= 1 && next == from + skip && skip < |fetched| && rows == fetched[skip..]
    requires from + |fetched| <= |node.chain|
    requires forall i | 0 <= i < |fetched| ::
              fetched[i] == Block(from + i, node.chain[from + i].hash,
                                  if i == 0 then None else Some(node.chain[from + i - 1].hash),
                                  node.chain[from + i].txRoot, node.chain[from + i].weave)
    ensures rows != [] && next + |rows| == from + |fetched|
    ensures rows[|rows| - 1].height == from + |fetched| - 1
    ensures forall i | 0 <= i < |rows| ::
              && rows[i].hash == node.chain[next + i].hash
              && (rows[i].previous.Some? ==> next + i > 0 && rows[i].previous.value == node.chain[next + i - 1].hash)
  {
    forall i | 0 <= i < |rows|
      ensures rows[i] == fetched[skip + i]
    {
    }
    assert rows[|rows| - 1] == fetched[|fetched| - 1];
  }

  lemma RetainsSame(a: Db, b: Db, node: Node)
    requires b.canonical == a.canonical
    requires a.state.Some? ==> b.state.Some? && b.state.value.checkpoint == a.state.value.checkpoint
    ensures Retains(a, b, node)
  {
  }

  // ----- the rows of a batch -----

  /** The rows of some heights, as they are stored. */
  ghost predicate AreRows(rows: seq<Block>, node: Node, start: nat, next: nat)
    requires next + |rows| <= |node.chain|
  {
    forall i | 0 <= i < |rows| :: rows[i] == RowOf(node, start, next + i)
  }

  /** Every row is stored under its hash exactly if none is stored already as something else and no two have one hash. */
  lemma RowsImmutable(blocks: map<Bytes, Block>, rows: seq<Block>, node: Node, start: nat, next: nat)
    requires rows != [] && next + |rows| <= |node.chain| && AreRows(rows, node, start, next)
    ensures Immutable(Insert(blocks, rows), rows) <==> Fresh(blocks, node, start, next, next + |rows| - 1)
  {
    InsertKeeps(blocks, rows);
    InsertHolds(blocks, rows);
    hide Insert;
    var after := Insert(blocks, rows);
    var end := next + |rows| - 1;
    if Immutable(after, rows) {
      forall h | next <= h <= end && node.chain[h].hash in blocks
        ensures blocks[node.chain[h].hash] == RowOf(node, start, h)
      {
        assert after[rows[h - next].hash] == rows[h - next];
      }
      forall g, h | next <= g < h <= end
        ensures node.chain[g].hash != node.chain[h].hash
      {
        assert after[rows[g - next].hash] == rows[g - next] && after[rows[h - next].hash] == rows[h - next];
      }
    }
    if Fresh(blocks, node, start, next, end) {
      forall i | 0 <= i < |rows|
        ensures rows[i].hash in after && after[rows[i].hash] == rows[i]
      {
        var k := rows[i].hash;
        assert rows[i] == RowOf(node, start, next + i);
        if k !in blocks {
          var j :| 0 <= j < |rows| && rows[j].hash == k && after[k] == rows[j];
          assert rows[j] == RowOf(node, start, next + j);
          assert i == j;
        }
      }
    }
  }

  lemma {:induction false} InsertHolds(blocks: map<Bytes, Block>, rows: seq<Block>)
    ensures forall i | 0 <= i < |rows| :: rows[i].hash in Insert(blocks, rows)
    decreases |rows|
  {
    if rows != [] {
      InsertHolds(blocks, rows[..|rows| - 1]);
    }
  }

  /** A batch of the node's blocks is accepted exactly if the node's chain extends the index so far. */
  lemma CommitIff(db: Db, rows: seq<Block>, node: Node, pin: Checkpoint, next: nat)
    requires Inv(db) && db.state.Some? && PinHolds(db.state.value, pin, node.source) && AllAgree(db, node)
    requires next == FirstHeight(db.state.value) && 1 <= |rows| <= 256 && next + |rows| <= |node.chain|
    requires AreRows(rows, node, db.state.value.start, next)
    requires VerifyCheckpoint(node, pin)
    requires forall h | (if db.state.value.through.Some? then next - 1 else next) <= h < next + |rows| :: EntryOk(node, h)
    requires forall h | next < h < next + |rows| :: node.chain[h - 1].weave <= node.chain[h].weave
    ensures CommitOk(db, rows, pin, node.source) <==>
              && next + |rows| - 1 <= MAX_SQL && next + |rows| - 1 <= pin.height + 50
              && (db.state.value.through.Some? ==> db.Stored(next - 1) && db.At(next - 1).weave <= node.chain[next].weave)
              && Fresh(db.blocks, node, db.state.value.start, next, next + |rows| - 1)
  {
    RowsImmutable(db.blocks, rows, node, db.state.value.start, next);
    RowsShaped(db.state.value, rows, node, pin, next);
    FollowsNode(db, rows, node, next);
    hide Insert, Fresh, Immutable, BlockOk, Follows, EntryOk, AreRows, Inv, AllAgree;
    assert db.state.value.through.Some? ==> db.At(next - 1).height == next - 1;
  }

  /** The rows of well formed entries have the shape of blocks as far as they are tracked. */
  lemma RowsShaped(s: IndexState, rows: seq<Block>, node: Node, pin: Checkpoint, next: nat)
    requires s.checkpoint == pin && VerifyCheckpoint(node, pin) && next == FirstHeight(s)
    requires rows != [] && next + |rows| <= |node.chain| && AreRows(rows, node, s.start, next) && s.start <= next
    requires forall h | (if s.through.Some? then next - 1 else next) <= h < next + |rows| :: EntryOk(node, h)
    ensures (forall i | 0 <= i < |rows| :: BlockOk(s, next + i, rows[i])) <==>
              next + |rows| - 1 <= MAX_SQL && next + |rows| - 1 <= pin.height + 50
  {
    var last := next + |rows| - 1;
    assert rows[|rows| - 1] == RowOf(node, s.start, next + (|rows| - 1));
    if last <= MAX_SQL && last <= pin.height + CONSENSUS_DEPTH {
      forall i | 0 <= i < |rows|
        ensures BlockOk(s, next + i, rows[i])
      {
        assert rows[i] == RowOf(node, s.start, next + i) && EntryOk(node, next + i);
        if rows[i].previous.Some? {
          assert EntryOk(node, next + i - 1);
        }
      }
    } else {
      assert !BlockOk(s, next + (|rows| - 1), rows[|rows| - 1]);
    }
  }

  lemma FollowsNode(db: Db, rows: seq<Block>, node: Node, next: nat)
    requires Inv(db) && db.state.Some? && AllAgree(db, node) && next == FirstHeight(db.state.value)
    requires rows != [] && next + |rows| <= |node.chain| && AreRows(rows, node, db.state.value.start, next)
    requires forall h | next < h < next + |rows| :: node.chain[h - 1].weave <= node.chain[h].weave
    ensures db.state.value.through.Some? ==> db.Stored(next - 1) && Predecessor(db) == Some(db.At(next - 1))
    ensures db.state.value.through.Some? ==>
              (Follows(db.At(next - 1), rows[0]) <==> db.At(next - 1).weave <= node.chain[next].weave)
    ensures forall i | 0 <= i < |rows| - 1 :: Follows(rows[i], rows[i + 1])
    ensures forall i | 0 <= i < |rows| :: rows[i].height !in db.canonical
  {
    var s := db.state.value;
    if s.through.Some? {
      assert db.Stored(next - 1);
      assert AgreesAt(db, node, next - 1);
      assert rows[0] == RowOf(node, s.start, next + 0);
    }
    forall i | 0 <= i < |rows| - 1
      ensures Follows(rows[i], rows[i + 1])
    {
      assert rows[i] == RowOf(node, s.start, next + i) && rows[i + 1] == RowOf(node, s.start, next + (i + 1));
    }
    forall i | 0 <= i < |rows|
      ensures rows[i].height !in db.canonical
    {
      assert rows[i] == RowOf(node, s.start, next + i);
    }
  }

  /** What a committed batch leaves in the block table. */
  lemma CommitHolds(db: Db, rows: seq<Block>, node: Node, pin: Checkpoint, next: nat)
    requires db.state.Some? && CommitOk(db, rows, pin, node.source) && next + |rows| <= |node.chain|
    requires AreRows(rows, node, db.state.value.start, next)
    ensures BlocksTo(db.blocks, Commit(db, rows).blocks, node, db.state.value.start, next, next + |rows|)
  {
    InsertKeeps(db.blocks, rows);
    hide Insert;
    forall h | next <= h < next + |rows|
      ensures node.chain[h].hash in Commit(db, rows).blocks
      ensures Commit(db, rows).blocks[node.chain[h].hash] == RowOf(node, db.state.value.start, h)
    {
      assert rows[h - next] == RowOf(node, db.state.value.start, h);
    }
    forall k | k in Commit(db, rows).blocks && k !in db.blocks
      ensures exists h :: next <= h < next + |rows| && k == node.chain[h].hash
    {
      var i :| 0 <= i < |rows| && rows[i].hash == k;
      assert rows[i] == RowOf(node, db.state.value.start, next + i);
    }
  }

  /** Exactly the node's blocks of some heights were added. */
  ghost predicate BlocksTo(before: map<Bytes, Block>, after: map<Bytes, Block>, node: Node, start: nat, first: nat, next: nat)
    requires next <= |node.chain|
  {
    && (forall k :: k in before ==> k in after && after[k] == before[k])
    && (forall h | first <= h < next ::
          node.chain[h].hash in after && after[node.chain[h].hash] == RowOf(node, start, h))
    && (forall k :: k in after && k !in before ==> exists h :: first <= h < next && k == node.chain[h].hash)
  }

  /** One turn of the import loop: heights `next..=fetchEnd`, fetched with one
      overlapping entry when the index is not empty. */
  method ImportBatch(store: BlockStore, node: Node, next: nat, fetchEnd: nat, tip: Checkpoint,
                     ghost parent: Bytes -> Bytes)
    returns (r: Result<nat>)
    requires store.Valid() && Trusted(store.View(), parent) && NodeLinked(node, parent) && AllAgree(store.View(), node)
    requires store.state.Some? && store.state.value.source == node.source
    requires next == FirstHeight(store.state.value) <= fetchEnd
    requires fetchEnd <= 255 + if store.state.value.through.Some? then store.state.value.through.value else next
    modifies store
    ensures r.Ok? <==> BatchOkFor(old(store.View()), node, next, fetchEnd, tip)
    ensures r.Ok? ==> fetchEnd < |node.chain| && BlocksTo(old(store.blocks), store.blocks, node, old(store.state.value.start), next, fetchEnd + 1)
    ensures r.Err? ==> store.View() == old(store.View())
    ensures store.Valid() && Trusted(store.View(), parent) && AllAgree(store.View(), node)
    ensures Retains(old(store.View()), store.View(), node)
    ensures store.state.Some?
    ensures r.Ok? ==> fetchEnd < |node.chain| && r.value == fetchEnd + 1 - next
    ensures store.state.value == if r.Ok? then old(store.state.value).(through := Some(fetchEnd))
                                 else old(store.state.value)
  {
    hide Inv, Trusted, AllAgree, Retains, NodeLinked, CommitOk, Insert, Canonicalize, Extensible, Fetchable, AreRows, BlocksTo;
    RetainsSame(store.View(), store.View(), node);
    var pin := store.state.value.checkpoint;
    var through := store.state.value.through;
    var fetchStart := if through.Some? then through.value else next;
    var skip := if through.Some? then 1 else 0;
    if !VerifyCheckpoint(node, pin) {
      return Err;
    }
    FetchIff(store.View(), node, next, fetchEnd, pin);
    var fetched := FetchBatch(node, fetchStart, fetchEnd, pin);
    if fetched.Err? || !VerifyCheckpoint(node, pin) || !VerifyCheckpoint(node, tip) {
      return Err;
    }
    var rows := fetched.value[skip..];
    BatchRows(fetched.value, rows, node, fetchStart, skip, next);
    RowsOfBatch(store.View(), fetched.value, rows, node, next, fetchEnd);
    BatchIff(store.View(), rows, node, pin, next, fetchEnd);
    ghost var before := store.View();
    var ok := store.CommitBatch(rows, pin, node.source);
    if !ok {
      return Err;
    }
    CommitAgrees(before, rows, node, parent, pin, next);
    CommitHolds(before, rows, node, pin, next);
    r := Ok(|rows|);
  }

  /** What extends the index can be fetched from its last block on. */
  lemma FetchIff(db: Db, node: Node, next: nat, end: nat, pin: Checkpoint)
    requires Inv(db) && db.state.Some? && next == FirstHeight(db.state.value) <= end && VerifyCheckpoint(node, pin)
    ensures Extensible(db, node, db.state.value.start, next, end) ==>
              Fetchable(node, if db.state.value.through.Some? then next - 1 else next, end, pin)
  {
  }

  lemma RowsOfBatch(db: Db, fetched: seq<Block>, rows: seq<Block>, node: Node, next: nat, end: nat)
    requires Inv(db) && db.state.Some? && next == FirstHeight(db.state.value) <= end < |node.chain|
    requires var from := if db.state.value.through.Some? then next - 1 else next;
             && |fetched| == end - from + 1 && rows == fetched[next - from..]
             && forall i | 0 <= i < |fetched| ::
                  fetched[i] == Block(from + i, node.chain[from + i].hash,
                                      if i == 0 then None else Some(node.chain[from + i - 1].hash),
                                      node.chain[from + i].txRoot, node.chain[from + i].weave)
    ensures |rows| == end - next + 1 && AreRows(rows, node, db.state.value.start, next)
  {
    var skip := if db.state.value.through.Some? then 1 else 0;
    forall i | 0 <= i < |rows|
      ensures rows[i] == RowOf(node, db.state.value.start, next + i)
    {
      assert rows[i] == fetched[skip + i];
    }
  }

  /** What was fetched is accepted exactly if it extends the index. */
  lemma BatchIff(db: Db, rows: seq<Block>, node: Node, pin: Checkpoint, next: nat, end: nat)
    requires Inv(db) && db.state.Some? && PinHolds(db.state.value, pin, node.source) && AllAgree(db, node)
    requires next == FirstHeight(db.state.value) <= end < |node.chain| && |rows| == end - next + 1 <= 256
    requires AreRows(rows, node, db.state.value.start, next) && VerifyCheckpoint(node, pin)
    requires Fetchable(node, if db.state.value.through.Some? then next - 1 else next, end, pin)
    ensures CommitOk(db, rows, pin, node.source) <==>
              end <= pin.height + 50 && Extensible(db, node, db.state.value.start, next, end)
  {
    CommitIff(db, rows, node, pin, next);
    hide CommitOk, Fresh, AreRows;
  }

  /** Pin and tip stand, the new heights are tracked, and the node's chain extends the index. */
  ghost predicate BatchOkFor(db: Db, node: Node, next: nat, end: nat, tip: Checkpoint)
    requires db.state.Some?
  {
    && VerifyCheckpoint(node, db.state.value.checkpoint) && VerifyCheckpoint(node, tip)
    && end <= db.state.value.checkpoint.height + 50
    && Extensible(db, node, db.state.value.start, next, end)
  }

  lemma RetainsTransitive(a: Db, b: Db, c: Db, node: Node)
    requires Retains(a, b, node) && Retains(b, c, node)
    ensures Retains(a, c, node)
  {
  }

  /** The part of the chain still to come extends the index as it has grown. */
  lemma ExtendsFurther(first: nat, grown: Db, db: Db, node: Node, start: nat, next: nat, end: nat, last: nat)
    requires Extensible(db, node, start, first, last) && first <= next <= end <= last && start <= first
    requires BlocksTo(db.blocks, grown.blocks, node, start, first, next) && (next == first ==> grown == db)
    requires Inv(grown) && grown.state.Some? && grown.state.value.start == start && FirstHeight(grown.state.value) == next
    requires AllAgree(grown, node)
    ensures Extensible(grown, node, start, next, end)
  {
    hide Fresh, BlocksTo, Inv, AllAgree;
    if next == first {
      FreshPart(db.blocks, node, start, first, end, last);
    } else {
      LastStored(db, grown, node, start, first, next);
      FreshLater(db.blocks, grown.blocks, node, start, first, next, end, last);
    }
  }

  lemma LastStored(db: Db, grown: Db, node: Node, start: nat, first: nat, next: nat)
    requires first < next <= |node.chain| && BlocksTo(db.blocks, grown.blocks, node, start, first, next)
    requires Inv(grown) && grown.state.Some? && AllAgree(grown, node)
    requires grown.state.value.start == start <= first && FirstHeight(grown.state.value) == next
    ensures grown.Stored(next - 1) && grown.At(next - 1).weave == node.chain[next - 1].weave
  {
    assert grown.Stored(next - 1) && AgreesAt(grown, node, next - 1);
    assert grown.At(next - 1) == RowOf(node, start, next - 1);
  }

  lemma FreshPart(blocks: map<Bytes, Block>, node: Node, start: nat, first: nat, end: nat, last: nat)
    requires end <= last < |node.chain| && Fresh(blocks, node, start, first, last)
    ensures Fresh(blocks, node, start, first, end)
  {
  }

  lemma FreshLater(blocks: map<Bytes, Block>, grown: map<Bytes, Block>, node: Node, start: nat, first: nat, next: nat,
                   end: nat, last: nat)
    requires first <= next <= end <= last < |node.chain| && Fresh(blocks, node, start, first, last)
    requires BlocksTo(blocks, grown, node, start, first, next)
    ensures Fresh(grown, node, start, next, end)
  {
  }

  /** And what the grown index is extended by extends the index before. */
  lemma ExtendsTogether(first: nat, grown: Db, db: Db, node: Node, start: nat, next: nat, end: nat)
    requires start <= first <= next <= end
    requires next > first ==> Extensible(db, node, start, first, next - 1)
    requires Extensible(grown, node, start, next, end)
    requires BlocksTo(db.blocks, grown.blocks, node, start, first, next) && (next == first ==> grown == db)
    requires Inv(grown) && grown.state.Some? && AllAgree(grown, node)
    requires grown.state.value.start == start && FirstHeight(grown.state.value) == next
    ensures Extensible(db, node, start, first, end)
  {
    hide Fresh, BlocksTo, Inv, AllAgree;
    if next > first {
      LastStored(db, grown, node, start, first, next);
      FreshTogether(db.blocks, grown.blocks, node, start, first, next, end);
    }
  }

  lemma FreshTogether(blocks: map<Bytes, Block>, grown: map<Bytes, Block>, node: Node, start: nat, first: nat, next: nat,
                      end: nat)
    requires first < next <= end < |node.chain|
    requires Fresh(blocks, node, start, first, next - 1) && Fresh(grown, node, start, next, end)
    requires BlocksTo(blocks, grown, node, start, first, next)
    ensures Fresh(blocks, node, start, first, end)
  {
    forall g, h | first <= g < h <= end
      ensures node.chain[g].hash != node.chain[h].hash
    {
      if g < next <= h {
        assert grown[node.chain[g].hash] == RowOf(node, start, g);
      }
    }
  }

  lemma BlocksGrow(a: map<Bytes, Block>, b: map<Bytes, Block>, c: map<Bytes, Block>, node: Node, start: nat,
                   first: nat, next: nat, end: nat)
    requires first <= next <= end <= |node.chain|
    requires BlocksTo(a, b, node, start, first, next) && BlocksTo(b, c, node, start, next, end)
    ensures BlocksTo(a, c, node, start, first, end)
  {
  }

  lemma NothingGrown(db: Db, node: Node, start: nat, first: nat)
    requires first <= |node.chain|
    ensures BlocksTo(db.blocks, db.blocks, node, start, first, first)
  {
  }

  /** Whether the chain extends an index depends on its blocks and its last height only. */
  lemma ExtendsSame(a: Db, b: Db, node: Node, start: nat, first: nat, end: nat)
    requires a.blocks == b.blocks
    requires first > start ==> first - 1 in a.canonical && first - 1 in b.canonical && a.canonical[first - 1] == b.canonical[first - 1]
    ensures Extensible(a, node, start, first, end) <==> Extensible(b, node, start, first, end)
  {
    hide Fresh;
  }

  /** Reads the pin of an index not yet begun, or reconciles the stored one. */
  method PinIndex(store: BlockStore, node: Node, coverage: nat, ghost parent: Bytes -> Bytes) returns (r: Result<Checkpoint>)
    requires store.Valid() && Trusted(store.View(), parent) && NodeLinked(node, parent) && |node.chain| > CONSENSUS_DEPTH
    requires store.state.Some? ==> store.state.value.start == coverage && store.state.value.source == node.source
    modifies store
    ensures store.Valid() && Trusted(store.View(), parent)
    ensures Retains(old(store.View()), store.View(), node)
    ensures store.blocks == old(store.blocks)
    ensures r.Ok? <==>
              && coverage <= |node.chain| - 51 <= MAX_SQL && HashOk(node, |node.chain| - 51)
              && (old(store.state).Some? ==> ReconcileOk(old(store.View()), node))
    ensures r.Ok? ==>
              && r.value == Checkpoint(|node.chain| - 51, node.chain[|node.chain| - 51].hash)
              && AllAgree(store.View(), node) && VerifyCheckpoint(node, r.value)
              && store.state.Some? && store.state.value.start == coverage && store.state.value.source == node.source
              && store.state.value.checkpoint == r.value
              && FirstHeight(store.state.value) == FirstNew(old(store.View()), node, coverage)
              && (forall h :: h in store.canonical ==> h in old(store.canonical) && store.canonical[h] == old(store.canonical)[h])
              && (forall h :: h in store.canonical <==> AgreesAt(old(store.View()), node, h))
  {
    hide Retains, Blocked, Agreed;
    RetainsSame(store.View(), store.View(), node);
    ghost var before := store.View();
    var pinned;
    if store.state.Some? {
      pinned := Reconcile(store, node, parent);
    } else {
      pinned := ReadCheckpoint(node, |node.chain| - 1 - CONSENSUS_DEPTH);
    }
    if pinned.Err? {
      return Err;
    }
    ghost var reconciled := store.View();
    var state := store.InitializeIndex(coverage, pinned.value, node.source);
    if state.Err? {
      return Err;
    }
    RetainsSame(reconciled, store.View(), node);
    RetainsTransitive(before, reconciled, store.View(), node);
    r := pinned;
  }

  /** Fetches and commits the heights up to `end`, batch by batch. */
  method ImportHeights(store: BlockStore, node: Node, end: nat, tip: Checkpoint, ghost parent: Bytes -> Bytes)
    returns (r: Result<nat>)
    requires store.Valid() && Trusted(store.View(), parent) && NodeLinked(node, parent) && AllAgree(store.View(), node)
    requires store.state.Some? && store.state.value.source == node.source && store.state.value.start < |node.chain|
    requires VerifyCheckpoint(node, store.state.value.checkpoint) && VerifyCheckpoint(node, tip)
    requires end < |node.chain| && end <= store.state.value.checkpoint.height + 50
    modifies store
    ensures store.Valid() && Trusted(store.View(), parent) && AllAgree(store.View(), node)
    ensures Retains(old(store.View()), store.View(), node)
    ensures store.state.Some? && store.state.value.start == old(store.state.value.start)
            && store.state.value.checkpoint == old(store.state.value.checkpoint)
    ensures var first := FirstHeight(old(store.state.value));
            && (r.Ok? <==> first > end || Extensible(old(store.View()), node, store.state.value.start, first, end))
            && (r.Ok? ==>
                  var next := if first > end then first else end + 1;
                  FirstHeight(store.state.value) == next && r.value == next - first)
  {
    hide Retains, NodeLinked, Extensible, BlocksTo, Inv, Trusted, AllAgree;
    RetainsSame(store.View(), store.View(), node);
    ghost var db := store.View();
    ghost var first := FirstHeight(store.state.value);
    var start := store.state.value.start;
    var through: Option<nat> := store.state.value.through;
    var next := if through.Some? then through.value + 1 else start;
    r := Ok(0);
    FirstWithin(db, node);
    NothingGrown(db, node, start, first);
    while next <= end
      invariant store.Valid() && Trusted(store.View(), parent) && AllAgree(store.View(), node)
      invariant Retains(db, store.View(), node)
      invariant store.state == Some(db.state.value.(through := through))
      invariant next == FirstHeight(store.state.value) && first <= next <= |node.chain| && r == Ok(next - first)
      invariant next > first ==> next <= end + 1 && Extensible(db, node, start, first, next - 1)
      invariant next == first ==> store.View() == db
      invariant BlocksTo(db.blocks, store.blocks, node, start, first, next)
      decreases end + 1 - next
    {
      // One overlapping entry links a resumed batch.
      var fetchStart := if through.Some? then through.value else next;
      var fetchEnd := if fetchStart + 255 < end then fetchStart + 255 else end;
      ghost var grown := store.View();
      ghost var was := next;
      if Extensible(db, node, start, first, end) {
        ExtendsFurther(first, grown, db, node, start, next, fetchEnd, end);
      }
      var count := ImportBatch(store, node, next, fetchEnd, tip, parent);
      RetainsTransitive(db, grown, store.View(), node);
      if count.Err? {
        return Err;
      }
      ExtendsTogether(first, grown, db, node, start, was, fetchEnd);
      BlocksGrow(db.blocks, grown.blocks, store.blocks, node, start, first, was, fetchEnd + 1);
      r := Ok(r.value + count.value);
      through := Some(fetchEnd);
      next := fetchEnd + 1;
    }
  }

  /** Imports the range.  It succeeds exactly if the node's chain allows it. */
  method ImportBlocks(store: BlockStore, node: Node, start: nat, end: nat, ghost parent: Bytes -> Bytes)
    returns (r: Result<Summary>)
    requires store.Valid() && Trusted(store.View(), parent) && NodeLinked(node, parent)
    modifies store
    ensures store.Valid() && Trusted(store.View(), parent)
    ensures Retains(old(store.View()), store.View(), node)
    ensures r.Ok? <==> Importable(old(store.View()), node, start, end)
    ensures r.Ok? ==>
              && start <= end < |node.chain| && AllAgree(store.View(), node)
              && store.state.Some? && store.state.value.start == (if start == 0 then 0 else start - 1)
              && store.state.value.through == r.value.through && store.state.value.checkpoint == r.value.pin
              && r.value.through.Some? && r.value.through.value >= end
              && forall h | start <= h <= end :: AgreesAt(store.View(), node, h)
    ensures r.Ok? ==> r.value.pin == Checkpoint(|node.chain| - 51, node.chain[|node.chain| - 51].hash)
    ensures r.Ok? ==>
              var first := FirstNew(old(store.View()), node, store.state.value.start);
              && r.value.imported == (if first <= end then end + 1 - first else 0)
              && forall h :: (h in store.canonical && !AgreesAt(old(store.View()), node, h)) <==> first <= h <= end
  {
    hide Retains, NodeLinked, Extensible, Blocked, Agreed, Inv, Trusted, AllAgree, AgreesAt;
    RetainsSame(store.View(), store.View(), node);
    if start > end {
      return Err;
    }
    var coverage := if start == 0 then 0 else start - 1;
    if store.state.Some? && (store.state.value.start != coverage || store.state.value.source != node.source) {
      return Err;
    }
    if |node.chain| - 1 < CONSENSUS_DEPTH || end > |node.chain| - 1 {
      return Err;
    }
    var tip := ReadCheckpoint(node, |node.chain| - 1);
    if tip.Err? {
      return Err;
    }
    ghost var before := store.View();
    var pinned := PinIndex(store, node, coverage, parent);
    if pinned.Err? {
      return Err;
    }
    ghost var db := store.View();
    ghost var first := FirstHeight(store.state.value);
    FirstHeld(db);
    ExtendsSame(before, db, node, coverage, first, end);
    var imported := ImportHeights(store, node, end, tip.value, parent);
    RetainsTransitive(before, db, store.View(), node);
    if imported.Err? {
      return Err;
    }
    Covered(store.View(), node, start, end);
    NewHeights(before, db, store.View(), node, first, if first > end then first else end + 1);
    r := Ok(Summary(imported.value, store.state.value.through, pinned.value));
  }

  /** An index that agrees with the node ends within the node's chain. */
  lemma FirstWithin(db: Db, node: Node)
    requires Inv(db) && db.state.Some? && AllAgree(db, node) && db.state.value.start < |node.chain|
    ensures db.state.value.start <= FirstHeight(db.state.value) <= |node.chain|
  {
    if db.state.value.through.Some? {
      assert AgreesAt(db, node, db.state.value.through.value);
    }
  }

  lemma FirstHeld(db: Db)
    requires Inv(db) && db.state.Some?
    ensures var first := FirstHeight(db.state.value); first > db.state.value.start ==> first - 1 in db.canonical
  {
  }

  lemma Covered(db: Db, node: Node, start: nat, end: nat)
    requires Inv(db) && db.state.Some? && AllAgree(db, node)
    requires db.state.value.start == (if start == 0 then 0 else start - 1) && FirstHeight(db.state.value) > end >= start
    ensures db.state.value.through.Some? && db.state.value.through.value >= end
    ensures forall h | start <= h <= end :: AgreesAt(db, node, h)
  {
    assert Covers(db, db.state.value.start, db.state.value.through.value);
    assert forall h | start <= h <= end :: h in db.canonical;
  }

  /** The heights that were not there before, or not those of the node, are the ones imported. */
  lemma NewHeights(before: Db, db: Db, after: Db, node: Node, first: nat, next: nat)
    requires Inv(db) && db.state.Some? && first == FirstHeight(db.state.value)
    requires forall h :: h in db.canonical <==> AgreesAt(before, node, h)
    requires Inv(after) && after.state.Some? && next == FirstHeight(after.state.value) >= first
    requires after.state.value.start == db.state.value.start
    ensures forall h :: (h in after.canonical && !AgreesAt(before, node, h)) <==> first <= h < next
  {
    hide Chained;
  }
}
