/** The ledger of admitted bundle jobs and the scan position saved for a restart. */
module Admission {
  import opened Wrappers
  import opened BundleScan
  import opened Sequences

  type Id = nat

  const MAX_JOBS: nat := 8

  datatype Ticket = Ticket(id: Id, bytes: nat, scheduled: bool)

  /** A scan position: both lane cursors. */
  datatype Position = Position(live: Option<Cursor>, backfill: Option<Cursor>)

  // ----- sums over the live tickets -----

  ghost function Bytes(t: Ticket): nat { t.bytes }

  ghost function ScheduledBytes(t: Ticket): nat { if t.scheduled then t.bytes else 0 }

  ghost function ScheduledJobs(t: Ticket): nat { if t.scheduled then 1 else 0 }

  ghost function RequestBytes(t: Ticket): nat { if t.scheduled then 0 else t.bytes }

  ghost function RequestJobs(t: Ticket): nat { if t.scheduled then 0 else 1 }

  lemma SumReplace(ts: seq<Ticket>, i: nat, middle: seq<Ticket>, f: Ticket -> nat)
    requires i < |ts|
    ensures Sum(ts[..i] + middle + ts[i + 1..], f) + f(ts[i]) == Sum(ts, f) + Sum(middle, f)
  {
    assert ts == ts[..i] + [ts[i]] + ts[i + 1..];
    SumConcat(ts[..i], [ts[i]], f);
    SumConcat(ts[..i] + [ts[i]], ts[i + 1..], f);
    SumConcat(ts[..i], middle, f);
    SumConcat(ts[..i] + middle, ts[i + 1..], f);
  }

  lemma {:induction false} SplitSums(ts: seq<Ticket>)
    ensures Sum(ts, Bytes) == Sum(ts, ScheduledBytes) + Sum(ts, RequestBytes)
    ensures |ts| == Sum(ts, ScheduledJobs) + Sum(ts, RequestJobs)
  {
    if ts != [] {
      SplitSums(ts[1..]);
    }
  }

  ghost function Ids(ts: seq<Ticket>): set<Id> {
    set i | 0 <= i < |ts| :: ts[i].id
  }

  ghost predicate Distinct(ts: seq<Ticket>) {
    forall i, j | 0 <= i < j < |ts| :: ts[i].id != ts[j].id
  }

  lemma {:induction false} DistinctCount(ts: seq<Ticket>)
    requires Distinct(ts)
    ensures |Ids(ts)| == |ts|
  {
    if ts == [] {
      assert Ids(ts) == {};
    } else {
      var front := ts[..|ts| - 1];
      DistinctCount(front);
      var last := ts[|ts| - 1].id;
      assert last !in Ids(front);
      forall x
        ensures x in Ids(ts) <==> x in Ids(front) || x == last
      {
        if x in Ids(ts) {
          var i :| 0 <= i < |ts| && ts[i].id == x;
          if i < |front| { assert front[i].id == x; }
        }
        if x in Ids(front) {
          var i :| 0 <= i < |front| && front[i].id == x;
          assert ts[i].id == x;
        }
      }
      assert Ids(ts) == Ids(front) + {last};
    }
  }

  /** The counters are the sums over the live reservations. */
  ghost predicate Ledger(live: seq<Ticket>, ids: set<Id>, bytes: nat, scheduledBytes: nat, scheduledJobs: nat) {
    && Distinct(live) && ids == Ids(live)
    && bytes == Sum(live, Bytes)
    && scheduledBytes == Sum(live, ScheduledBytes)
    && scheduledJobs == Sum(live, ScheduledJobs)
  }

  lemma LedgerSays(live: seq<Ticket>, ids: set<Id>, bytes: nat, scheduledBytes: nat, scheduledJobs: nat)
    requires Ledger(live, ids, bytes, scheduledBytes, scheduledJobs)
    ensures ids == Ids(live) && |ids| == |live|
    ensures bytes == Sum(live, Bytes) && scheduledBytes == Sum(live, ScheduledBytes)
    ensures scheduledJobs == Sum(live, ScheduledJobs)
  {
    DistinctCount(live);
  }

  lemma KeysGrow(keys: set<Id>, ids: set<Id>, id: Id)
    ensures keys <= ids ==> keys <= ids + {id}
  {
  }

  lemma LedgerAppend(live: seq<Ticket>, ids: set<Id>, bytes: nat, scheduledBytes: nat, scheduledJobs: nat, t: Ticket)
    requires Ledger(live, ids, bytes, scheduledBytes, scheduledJobs) && t.id !in ids
    ensures Ledger(live + [t], ids + {t.id}, bytes + t.bytes,
                   scheduledBytes + ScheduledBytes(t), scheduledJobs + ScheduledJobs(t))
  {
    SumConcat(live, [t], Bytes);
    SumConcat(live, [t], ScheduledBytes);
    SumConcat(live, [t], ScheduledJobs);
    var after := live + [t];
    assert after[|live|].id == t.id;
    forall x
      ensures x in Ids(after) <==> x in Ids(live) || x == t.id
    {
      if x in Ids(live) { var i :| 0 <= i < |live| && live[i].id == x; assert after[i].id == x; }
    }
  }

  lemma LedgerShrink(live: seq<Ticket>, ids: set<Id>, bytes: nat, scheduledBytes: nat, scheduledJobs: nat, i: nat, size: nat)
    requires Ledger(live, ids, bytes, scheduledBytes, scheduledJobs) && i < |live| && size <= live[i].bytes
    ensures var drop := live[i].bytes - size;
            && drop <= bytes && (live[i].scheduled ==> drop <= scheduledBytes)
            && Ledger(live[i := live[i].(bytes := size)], ids, bytes - drop,
                      if live[i].scheduled then scheduledBytes - drop else scheduledBytes, scheduledJobs)
  {
    var t := live[i].(bytes := size);
    var after := live[i := t];
    assert after == live[..i] + [t] + live[i + 1..];
    SumReplace(live, i, [t], Bytes);
    SumReplace(live, i, [t], ScheduledBytes);
    SumReplace(live, i, [t], ScheduledJobs);
    forall x
      ensures x in Ids(after) <==> x in Ids(live)
    {
      if x in Ids(after) { var k :| 0 <= k < |after| && after[k].id == x; assert live[k].id == x; }
      if x in Ids(live) { var k :| 0 <= k < |live| && live[k].id == x; assert after[k].id == x; }
    }
  }

  lemma LedgerRemove(live: seq<Ticket>, ids: set<Id>, bytes: nat, scheduledBytes: nat, scheduledJobs: nat, i: nat)
    requires Ledger(live, ids, bytes, scheduledBytes, scheduledJobs) && i < |live|
    ensures live[i].bytes <= bytes && ScheduledBytes(live[i]) <= scheduledBytes && ScheduledJobs(live[i]) <= scheduledJobs
    ensures Ledger(live[..i] + live[i + 1..], ids - {live[i].id}, bytes - live[i].bytes,
                   scheduledBytes - ScheduledBytes(live[i]), scheduledJobs - ScheduledJobs(live[i]))
  {
    SumReplace(live, i, [], Bytes);
    SumReplace(live, i, [], ScheduledBytes);
    SumReplace(live, i, [], ScheduledJobs);
    var after := live[..i] + live[i + 1..];
    assert after == live[..i] + [] + live[i + 1..];
    assert forall k | 0 <= k < |after| :: after[k] == live[if k < i then k else k + 1];
    forall x
      ensures x in Ids(after) <==> x in Ids(live) && x != live[i].id
    {
      if x in Ids(after) {
        var k :| 0 <= k < |after| && after[k].id == x;
        assert live[if k < i then k else k + 1].id == x;
      }
      if x in Ids(live) && x != live[i].id {
        var k :| 0 <= k < |live| && live[k].id == x;
        assert after[if k < i then k else k - 1] == live[k];
      }
    }
  }

  class Admission {
    const maxBytes: nat
    const maxJobs: nat
    const maxScheduledBytes: nat
    const maxScheduledJobs: nat
    var ids: set<Id>
    var scanCursors: map<Id, (nat, Position)>
    var bytes: nat
    var scheduledBytes: nat
    var scheduledJobs: nat
    var closed: bool
    var paused: bool
    /** The reservations that exist, each owned by a caller. */
    ghost var live: seq<Ticket>

    ghost predicate Valid()
      reads this
    {
      && Ledger(live, ids, bytes, scheduledBytes, scheduledJobs)
      && bytes <= maxBytes && scheduledBytes <= maxScheduledBytes && scheduledJobs <= maxScheduledJobs
      && |live| <= maxJobs
      && scanCursors.Keys <= ids
    }

    constructor (maxBytes: nat, maxJobs: nat, requestHeadroom: bool)
      requires requestHeadroom ==> maxJobs >= MAX_JOBS
      ensures Valid() && live == [] && !closed && !paused && fresh(this)
      ensures this.maxBytes == maxBytes && this.maxJobs == maxJobs
      ensures maxScheduledJobs == if requestHeadroom then maxJobs - MAX_JOBS else maxJobs
      ensures maxScheduledBytes == if requestHeadroom then maxBytes / 2 else maxBytes
    {
      this.maxBytes, this.maxJobs := maxBytes, maxJobs;
      maxScheduledJobs := if requestHeadroom then maxJobs - MAX_JOBS else maxJobs;
      maxScheduledBytes := if requestHeadroom then maxBytes / 2 else maxBytes;
      ids, scanCursors, bytes, scheduledBytes, scheduledJobs := {}, map[], 0, 0, 0;
      closed, paused, live := false, false, [];
    }

    /** The room a reservation needs, in terms of the live reservations. */
    ghost predicate HasRoom(id: Id, size: nat, scheduled: bool)
      reads this
    {
      && !paused && !closed && id !in Ids(live)
      && |live| < maxJobs && Sum(live, Bytes) + size <= maxBytes
      && (scheduled ==> Sum(live, ScheduledBytes) + size <= maxScheduledBytes
                        && Sum(live, ScheduledJobs) < maxScheduledJobs)
    }

    /** The counters tell whether there is room. */
    lemma RoomKnown(id: Id, size: nat, scheduled: bool)
      requires Valid()
      ensures HasRoom(id, size, scheduled) <==>
                && !paused && !closed && |ids| < maxJobs && id !in ids && size <= maxBytes - bytes
                && (scheduled ==> size <= maxScheduledBytes - scheduledBytes && scheduledJobs < maxScheduledJobs)
      ensures |ids| == |live|
    {
      LedgerSays(live, ids, bytes, scheduledBytes, scheduledJobs);
      hide Ledger, Sum, Ids;
    }

    /** A taken lock counts as no room. */
    method Reserve(id: Id, size: nat, scheduled: bool, contended: bool) returns (ticket: Option<Ticket>)
      requires Valid()
      modifies this
      ensures Valid()
      ensures ticket.Some? <==> !contended && old(HasRoom(id, size, scheduled))
      ensures ticket.Some? ==> ticket.value == Ticket(id, size, scheduled)
      ensures live == old(live) + (if ticket.Some? then [ticket.value] else [])
      ensures scanCursors == old(scanCursors) && paused == old(paused) && closed == old(closed)
    {
      RoomKnown(id, size, scheduled);
      hide Ledger, HasRoom;
      if contended {
        return None;
      }
      if paused || closed || |ids| == maxJobs || id in ids || size > maxBytes - bytes
         || (scheduled && size > maxScheduledBytes - scheduledBytes)
         || (scheduled && scheduledJobs == maxScheduledJobs) {
        return None;
      }
      Take(Ticket(id, size, scheduled));
      ticket := Some(Ticket(id, size, scheduled));
    }

    /** Enter a reservation in the counters. */
    method Take(t: Ticket)
      requires Valid() && HasRoom(t.id, t.bytes, t.scheduled)
      modifies this
      ensures Valid() && live == old(live) + [t]
      ensures scanCursors == old(scanCursors) && paused == old(paused) && closed == old(closed)
    {
      hide Ledger, HasRoom;
      RoomKnown(t.id, t.bytes, t.scheduled);
      LedgerAppend(live, ids, bytes, scheduledBytes, scheduledJobs, t);
      KeysGrow(scanCursors.Keys, ids, t.id);
      ids, bytes := ids + {t.id}, bytes + t.bytes;
      if t.scheduled {
        scheduledBytes, scheduledJobs := scheduledBytes + t.bytes, scheduledJobs + 1;
      }
      live := live + [t];
    }

    /** Lowers a reservation to the bytes really held. */
    method Shrink(ticket: Ticket, ghost i: nat, size: nat) returns (r: Result<Ticket>)
      requires Valid() && i < |live| && live[i] == ticket
      modifies this
      ensures Valid()
      ensures r.Ok? <==> size <= ticket.bytes
      ensures r.Ok? ==> r.value == ticket.(bytes := size) && live == old(live)[i := r.value]
      ensures r.Err? ==> live == old(live)
      ensures scanCursors == old(scanCursors)
    {
      if size > ticket.bytes {
        return Err;
      }
      LedgerShrink(live, ids, bytes, scheduledBytes, scheduledJobs, i, size);
      bytes := bytes - (ticket.bytes - size);
      if ticket.scheduled {
        scheduledBytes := scheduledBytes - (ticket.bytes - size);
      }
      live := live[i := ticket.(bytes := size)];
      r := Ok(ticket.(bytes := size));
    }

    /** Dropping a reservation also forgets its scan position. */
    method Release(ticket: Ticket, ghost i: nat)
      requires Valid() && i < |live| && live[i] == ticket
      modifies this
      ensures Valid()
      ensures live == old(live)[..i] + old(live)[i + 1..]
      ensures scanCursors == old(scanCursors) - {ticket.id}
    {
      LedgerRemove(live, ids, bytes, scheduledBytes, scheduledJobs, i);
      ids, scanCursors, bytes := ids - {ticket.id}, scanCursors - {ticket.id}, bytes - ticket.bytes;
      if ticket.scheduled {
        scheduledBytes, scheduledJobs := scheduledBytes - ticket.bytes, scheduledJobs - 1;
      }
      live := live[..i] + live[i + 1..];
    }

    /** Keeps the earliest page a root was seen on. */
    method TrackScan(id: Id, sequence: nat, after: Position)
      requires Valid()
      modifies this`scanCursors
      ensures Valid()
      ensures scanCursors == Tracked(old(scanCursors), old(ids), id, sequence, after)
      ensures id in ids ==> id in scanCursors && scanCursors[id].0 <= sequence
      ensures forall j :: j in old(scanCursors) ==> j in scanCursors && scanCursors[j].0 <= old(scanCursors)[j].0
      ensures forall j :: j != id || j !in ids ==>
                (j in scanCursors <==> j in old(scanCursors)) && (j in scanCursors ==> scanCursors[j] == old(scanCursors)[j])
    {
      if id in ids {
        if id !in scanCursors || sequence < scanCursors[id].0 {
          scanCursors := scanCursors[id := (sequence, after)];
        }
      }
    }

    /** The position saved for a restart: the page of the earliest outstanding root, its
        live cursor lowered to the boundary. */
    method ScanCheckpoint(boundary: Position) returns (checkpoint: Position)
      requires Valid()
      ensures IsCheckpoint(scanCursors, boundary, checkpoint)
    {
      checkpoint := boundary;
      if scanCursors != map[] {
        EarliestExists(scanCursors);
        var id :| id in scanCursors && forall j | j in scanCursors :: scanCursors[id].0 <= scanCursors[j].0;
        checkpoint := scanCursors[id].1;
        assert Earliest(scanCursors, id);
      }
      if Lower(boundary.live, checkpoint.live) {
        checkpoint := checkpoint.(live := boundary.live);
      }
    }
  }

  /** The share kept for requests: whatever the scheduler holds, a request whose own kind
      stays within the share is admitted. */
  lemma RequestsHaveRoom(a: Admission, id: Id, size: nat)
    requires a.Valid() && !a.paused && !a.closed && id !in Ids(a.live)
    requires Sum(a.live, RequestJobs) < a.maxJobs - a.maxScheduledJobs
    requires Sum(a.live, RequestBytes) + size <= a.maxBytes - a.maxScheduledBytes
    ensures a.HasRoom(id, size, false)
  {
    SplitSums(a.live);
  }

  // ----- positions -----

  ghost function Tracked(cursors: map<Id, (nat, Position)>, ids: set<Id>, id: Id, sequence: nat, after: Position)
    : map<Id, (nat, Position)>
  {
    if id in ids && (id !in cursors || sequence < cursors[id].0) then cursors[id := (sequence, after)] else cursors
  }

  /** No cursor is the earliest position of the live lane. */
  predicate Lower(a: Option<Cursor>, b: Option<Cursor>) {
    b.Some? && (a.None? || Less(a.value, b.value))
  }

  ghost predicate Earliest(cursors: map<Id, (nat, Position)>, id: Id) {
    id in cursors && forall j | j in cursors :: cursors[id].0 <= cursors[j].0
  }

  ghost predicate IsCheckpoint(cursors: map<Id, (nat, Position)>, boundary: Position, checkpoint: Position) {
    exists page ::
      && (if cursors == map[] then page == boundary else exists id :: Earliest(cursors, id) && cursors[id].1 == page)
      && checkpoint == if Lower(boundary.live, page.live) then page.(live := boundary.live) else page
  }

  lemma {:induction false} EarliestExists(cursors: map<Id, (nat, Position)>)
    requires cursors != map[]
    ensures exists id :: Earliest(cursors, id)
    decreases |cursors|
  {
    var id :| id in cursors;
    var rest := cursors - {id};
    if rest == map[] {
      assert cursors.Keys == {id} by {
        assert forall k | k in cursors && k != id :: k in rest;
      }
      assert Earliest(cursors, id);
    } else {
      assert |rest.Keys| < |cursors.Keys| by { assert cursors.Keys == rest.Keys + {id}; }
      EarliestExists(rest);
      var other :| Earliest(rest, other);
      if cursors[id].0 <= cursors[other].0 {
        forall j | j in cursors ensures cursors[id].0 <= cursors[j].0 { if j != id { assert j in rest; } }
        assert Earliest(cursors, id);
      } else {
        forall j | j in cursors ensures cursors[other].0 <= cursors[j].0 { if j != id { assert j in rest; } }
        assert Earliest(cursors, other);
      }
    }
  }
}
