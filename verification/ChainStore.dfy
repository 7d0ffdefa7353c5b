/** The operations of the block store on its tables, statement by statement.
    Each runs in one transaction: it takes effect as a whole or not at all.
    What they keep is proved about the same operations on values. */
module ChainStore {
  import opened Wrappers
  import opened ChainIndex
  import opened Octets

  /** One pass over the batch with a moving predecessor. */
  method ValidateBatch(rows: seq<Block>, s: IndexState, stored: Option<Block>) returns (ok: bool)
    ensures ok <==> BatchOk(rows, s, stored)
  {
    if |rows| == 0 || |rows| > MAX_BATCH {
      return false;
    }
    var cursor := match stored case Some(p) => Some(p.height) case None => None;
    if cursor != s.through {
      return false;
    }
    var first := if s.through.Some? then s.through.value + 1 else s.start;
    var predecessor := stored;
    for i := 0 to |rows|
      invariant predecessor == if i == 0 then stored else Some(rows[i - 1])
      invariant forall k | 0 <= k < i :: BlockOk(s, first + k, rows[k])
      invariant i > 0 && stored.Some? ==> Follows(stored.value, rows[0])
      invariant forall k | 0 <= k < i - 1 :: Follows(rows[k], rows[k + 1])
    {
      var block := rows[i];
      if block.height != first + i || block.height > MAX_SQL || block.height > s.checkpoint.height + CONSENSUS_DEPTH
         || |block.hash| != HASH_LENGTH || (block.previous.Some? && |block.previous.value| != HASH_LENGTH)
         || (|block.txRoot| != 0 && |block.txRoot| != ROOT_LENGTH)
         || (block.height == s.checkpoint.height && block.hash != s.checkpoint.hash) {
        assert !BlockOk(s, first + i, rows[i]);
        return false;
      }
      if predecessor.Some? && (block.previous != Some(predecessor.value.hash) || block.weave < predecessor.value.weave) {
        assert i > 0 ==> !Follows(rows[i - 1], rows[i - 1 + 1]);
        return false;
      }
      predecessor := Some(block);
    }
    ok := true;
  }

  class BlockStore {
    var state: Option<IndexState>
    var blocks: map<Bytes, Block>
    var canonical: map<nat, Bytes>

    function View(): Db
      reads this
    {
      Db(state, blocks, canonical)
    }

    ghost predicate Valid()
      reads this
    {
      Inv(View())
    }

    constructor ()
      ensures Valid() && View() == Db(None, map[], map[])
    {
      state, blocks, canonical := None, map[], map[];
    }

    method InitializeIndex(start: nat, pin: Checkpoint, source: string) returns (r: Result<IndexState>)
      requires Valid()
      modifies this
      ensures Valid()
      ensures r.Ok? <==> Initialize(old(View()), start, pin, source).Ok?
      ensures r.Ok? ==> View() == Initialize(old(View()), start, pin, source).value && state == Some(r.value)
      ensures r.Err? ==> View() == old(View())
    {
      if start > MAX_SQL || pin.height > MAX_SQL || start > pin.height
         || |pin.hash| != HASH_LENGTH || !SourceOk(source) {
        return Err;
      }
      // INSERT ... ON CONFLICT (singleton) DO NOTHING
      var row := if state.None? then IndexState(start, None, pin, source) else state.value;
      if row.start != start || row.checkpoint != pin || row.source != source {
        return Err;
      }
      InitializeKeeps(View(), start, pin, source);
      state := Some(row);
      r := Ok(row);
    }

    /** Add every row whose hash is not stored yet. */
    method InsertAll(rows: seq<Block>) returns (inserted: map<Bytes, Block>)
      ensures inserted == Insert(blocks, rows)
    {
      inserted := blocks;
      for i := 0 to |rows|
        invariant inserted == Insert(blocks, rows[..i])
      {
        assert rows[..i + 1][..i] == rows[..i];
        if rows[i].hash !in inserted {
          inserted := inserted[rows[i].hash := rows[i]];
        }
      }
      assert rows[..|rows|] == rows;
    }

    /** Every row reads back as it was sent. */
    method AllStored(inserted: map<Bytes, Block>, rows: seq<Block>) returns (same: bool)
      ensures same <==> Immutable(inserted, rows)
    {
      for i := 0 to |rows|
        invariant forall k | 0 <= k < i :: rows[k].hash in inserted && inserted[rows[k].hash] == rows[k]
      {
        if rows[i].hash !in inserted || inserted[rows[i].hash] != rows[i] {
          return false;
        }
      }
      same := true;
    }

    /** Take every height, none of which may be taken. */
    method CoverAll(rows: seq<Block>) returns (covered: Option<map<nat, Bytes>>)
      ensures covered.Some? <==> forall i | 0 <= i < |rows| :: rows[i].height !in canonical
      ensures covered.Some? ==> covered.value == Canonicalize(canonical, rows)
    {
      var taken := canonical;
      for i := 0 to |rows|
        invariant taken == Canonicalize(canonical, rows[..i])
        invariant forall k | 0 <= k < i :: rows[k].height !in canonical
      {
        assert rows[..i + 1][..i] == rows[..i];
        if rows[i].height in canonical {
          return None;
        }
        taken := taken[rows[i].height := rows[i].hash];
      }
      assert rows[..|rows|] == rows;
      covered := Some(taken);
    }

    /** All statements run in one transaction: a refused batch changes nothing. */
    method CommitBatch(rows: seq<Block>, pin: Checkpoint, source: string) returns (ok: bool)
      requires Valid()
      modifies this
      ensures Valid()
      ensures ok <==> CommitOk(old(View()), rows, pin, source)
      ensures ok ==> View() == Commit(old(View()), rows)
      ensures !ok ==> View() == old(View())
    {
      hide Insert, Canonicalize, Immutable, Inv;
      if state.None? || state.value.checkpoint != pin || state.value.source != source {
        return false;
      }
      var stored := Predecessor(View());
      if state.value.through.Some? && stored.None? {
        return false;
      }
      var valid := ValidateBatch(rows, state.value, stored);
      if !valid {
        return false;
      }
      var inserted := InsertAll(rows);
      var same := AllStored(inserted, rows);
      if !same {
        return false;
      }
      var covered := CoverAll(rows);
      if covered.None? {
        return false;
      }
      assert CommitOk(View(), rows, pin, source);
      CommitKeeps(View(), rows, pin, source);
      state := Some(state.value.(through := Some(rows[|rows| - 1].height)));
      blocks, canonical := inserted, covered.value;
      ok := true;
    }

    method RewindTo(ancestor: nat, pin: Checkpoint, source: string) returns (ok: bool)
      requires Valid()
      modifies this
      ensures Valid()
      ensures ok <==> RewindOk(old(View()), ancestor, pin, source)
      ensures ok ==> View() == Rewind(old(View()), ancestor)
      ensures !ok ==> View() == old(View())
    {
      if state.None? || state.value.checkpoint != pin || state.value.source != source || ancestor < pin.height
         || state.value.through.None? || ancestor > state.value.through.value || ancestor > MAX_SQL {
        return false;
      }
      RewindKeeps(View(), ancestor, pin, source);
      state := Some(state.value.(through := Some(ancestor)));
      canonical := map h | h in canonical && h <= ancestor :: canonical[h];
      ok := true;
    }

    /** The index stays sound exactly if the new pin agrees with the block stored at its height. */
    method AdvanceCheckpoint(previous: Checkpoint, next: Checkpoint, source: string) returns (ok: bool)
      requires Valid()
      modifies this
      ensures Valid() <==> !ok || PinAgrees(old(View()), next)
      ensures ok <==> AdvanceOk(old(View()), previous, next, source)
      ensures ok ==> View() == Advance(old(View()), next)
      ensures !ok ==> View() == old(View())
    {
      if next.height <= previous.height || next.height > MAX_SQL || |next.hash| != HASH_LENGTH {
        return false;
      }
      if state.None? || state.value.checkpoint != previous || state.value.source != source {
        return false;
      }
      AdvanceKeepsIff(View(), previous, next, source);
      state := Some(state.value.(checkpoint := next));
      ok := true;
    }
  }
}
