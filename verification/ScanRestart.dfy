/** What a restart from the saved scan position finds again. */
module ScanRestart {
  import opened Wrappers
  import opened BundleScan
  import opened Admission
  import C = ChainIndex

  /** A page the worker fetched: the position it was asked from and its roots.  `round` and `turn` are history:
      the cycles begun and the rewinds made before. */
  datatype Visit = Visit(start: Position, roots: seq<Cursor>, round: nat, turn: nat)

  /** The worker between two statements of its loop.  The last visit is the current page, `left` what is still to be
      admitted from it, `saved` the position in the database; `savedRound` is history: the cycle it was reached in. */
  datatype Worker = Worker(boundary: nat, start: nat, cursor: Position, left: seq<Cursor>,
                           tracked: map<Id, (nat, Position)>, saved: Position, savedRound: nat,
                           visits: seq<Visit>, round: nat, turn: nat) {
    ghost function Sequence(): nat
      requires visits != []
    {
      |visits| - 1
    }

    /** The position that stands for the work not admitted yet. */
    ghost function Boundary(): Position
      requires visits != []
    {
      if left != [] then visits[Sequence()].start else cursor
    }
  }

  datatype Event =
    | FetchPage(w: World)         // a query against the store as it is now
    | Rewind(stable: nat)         // to the checkpoint height
    | Take(running: bool)         // the next root of the page; its job may have ended meanwhile
    | Finish(id: Id)
    | Save(checkpoint: Position, round: nat)

  ghost function FetchAt(p: Position, w: World): Page {
    ScanPage(w, p.live, p.backfill)
  }

  /** Pages are fetched and the lane is rewound between pages only.  The scan never runs further ahead of the
      checkpoint than the index does. */
  ghost predicate Enabled(x: Worker, e: Event)
    requires x.visits != []
  {
    match e
    case FetchPage(w) => x.left == [] && ChainOk(w.chain) && w.boundary == x.boundary && w.start == x.start
    case Rewind(stable) => x.left == [] && (x.cursor.live.Some? ==> x.cursor.live.value.height <= stable + C.CONSENSUS_DEPTH)
    case Take(_) => x.left != []
    case Finish(_) => true
    case Save(checkpoint, round) => IsCheckpoint(x.tracked, x.Boundary(), checkpoint) && IsRound(x, round)
  }

  /** The cycle of the earliest page with a job that is running, or the present one. */
  ghost predicate IsRound(x: Worker, round: nat) {
    if x.tracked == map[] then round == x.round
    else exists id :: Earliest(x.tracked, id) && x.tracked[id].0 < |x.visits| && round == x.visits[x.tracked[id].0].round
  }

  ghost function Next(x: Worker, e: Event): Worker
    requires x.visits != [] && Enabled(x, e)
  {
    match e
    case FetchPage(w) =>
      var page := FetchAt(x.cursor, w);
      if page.after.None? then x.(cursor := Position(None, None), round := x.round + 1)
      else
        x.(visits := x.visits + [Visit(x.cursor, page.roots, x.round, x.turn)], left := page.roots,
           cursor := if page.backfill then x.cursor.(backfill := page.after) else x.cursor.(live := page.after))
    case Rewind(stable) => x.(cursor := x.cursor.(live := Rewound(x.cursor.live, stable)), turn := x.turn + 1)
    case Take(running) =>
      var id := x.left[0].id;
      x.(left := x.left[1..],
         tracked := Tracked(x.tracked, if running then {id} else {}, id, x.Sequence(), x.visits[x.Sequence()].start))
    case Finish(id) => x.(tracked := x.tracked - {id})
    case Save(checkpoint, round) => x.(saved := checkpoint, savedRound := round)
  }

  ghost function Loaded(boundary: nat, start: nat, saved: Position): Worker {
    Worker(boundary, start, saved, [], map[], saved, 0, [Visit(saved, [], 0, 0)], 0, 0)
  }

  ghost predicate Run(x: Worker, events: seq<Event>, y: Worker)
    decreases |events|
  {
    if events == [] then x == y
    else x.visits != [] && Enabled(x, events[0]) && Run(Next(x, events[0]), events[1..], y)
  }

  // ----- order of positions -----

  /** `a` is at or before `b` in both lanes: live lanes run up, backfill lanes down. */
  ghost predicate NotLater(a: Position, b: Position) {
    !Lower(b.live, a.live) && LaneNotLater(a.backfill, b.backfill)
  }

  ghost predicate LaneNotLater(a: Option<Cursor>, b: Option<Cursor>) {
    a.None? || (b.Some? && !Less(a.value, b.value))
  }

  lemma NotLaterTransitive(a: Position, b: Position, c: Position)
    requires NotLater(a, b) && NotLater(b, c)
    ensures NotLater(a, c)
  {
  }

  /** A root lies ahead of a position in the lane it belongs to. */
  ghost predicate Ahead(boundary: nat, p: Position, k: Cursor) {
    if k.height > boundary then Past(false, p.live, k) else Past(true, p.backfill, k)
  }

  /** A page moves its lane strictly forward, whatever the store holds by then, and its roots lie ahead of the
      position it was asked from. */
  lemma PageMovesForward(p: Position, w: World)
    requires ChainOk(w.chain) && FetchAt(p, w).after.Some?
    ensures var page := FetchAt(p, w);
            && (if page.backfill then p.backfill.Some? ==> Less(page.after.value, p.backfill.value)
                else CursorOk(page.after.value) && (p.live.Some? ==> Less(p.live.value, page.after.value)))
            && forall k :: k in page.roots ==> Ahead(w.boundary, p, k)
  {
    var page := FetchAt(p, w);
    if page.roots != [] {
      if page.backfill {
        PageRoots(w.chain, BackfillLow(w, p.backfill), w.BackfillHigh(), true, p.backfill);
      } else {
        PageRoots(w.chain, w.LiveLow(), LiveHigh(w, p.live), false, p.live);
      }
      assert page.roots[|page.roots| - 1] in page.roots;
    }
  }

  lemma PageRoots(chain: Chain, low: nat, high: int, descending: bool, after: Option<Cursor>)
    requires ChainOk(chain)
    ensures forall k :: k in PendingAfter(chain, after, low, high, descending) ==>
              low <= k.height <= high && Past(descending, after, k) && CursorOk(k)
  {
    PageOfPages(chain, low, high, descending, after);
    LaneMembers(chain, low, high, descending, after);
    forall k | k in PendingAfter(chain, after, low, high, descending)
      ensures low <= k.height <= high && Past(descending, after, k) && CursorOk(k)
    {
      assert k in Lane(chain, low, high, descending, after);
      assert Pending(chain, low, high, descending, after, k);
      assert BlockOk(chain[k.height]);
    }
  }

  // ----- invariant over runs -----

  ghost predicate Shaped(x: Worker) {
    && x.visits != []
    && (forall k :: k in x.left ==> k in x.visits[x.Sequence()].roots)
    && (x.left != [] ==> x.visits[x.Sequence()].round == x.round && x.visits[x.Sequence()].turn == x.turn)
    && (forall id | id in x.tracked :: x.tracked[id].0 <= x.Sequence() && x.tracked[id].1 == x.visits[x.tracked[id].0].start)
    && (x.cursor.live.Some? ==> CursorOk(x.cursor.live.value))
  }

  ghost predicate RootsAhead(x: Worker) {
    forall n, k | 0 <= n < |x.visits| && k in x.visits[n].roots :: Ahead(x.boundary, x.visits[n].start, k)
  }

  /** Pages of one cycle are asked for in order: the backfill lane throughout, the live lane between rewinds. */
  ghost predicate InOrder(x: Worker) {
    && (forall i, j | 0 <= i <= j < |x.visits| :: Before(x.visits[i], x.visits[j].start, x.visits[j].round, x.visits[j].turn))
    && (forall i | 0 <= i < |x.visits| :: Before(x.visits[i], x.cursor, x.round, x.turn))
  }

  ghost predicate Before(v: Visit, p: Position, round: nat, turn: nat) {
    && v.round <= round && v.turn <= turn
    && (v.round == round ==> LaneNotLater(v.start.backfill, p.backfill))
    && (v.round == round && v.turn == turn ==> !Lower(p.live, v.start.live))
  }

  /** The saved position is not later in the backfill lane than the outstanding pages of its own cycle. */
  ghost predicate SavedInOrder(x: Worker)
    requires x.visits != []
  {
    && x.savedRound <= x.round
    && (x.savedRound == x.round ==> LaneNotLater(x.saved.backfill, x.cursor.backfill))
    && forall n | 0 <= n < |x.visits| && Outstanding(x, n) :: SavedBefore(x, x.visits[n])
  }

  ghost predicate SavedBefore(x: Worker, v: Visit) {
    && x.savedRound <= v.round
    && (x.savedRound == v.round ==> LaneNotLater(x.saved.backfill, v.start.backfill))
  }

  ghost predicate Inv(x: Worker) {
    Shaped(x) && RootsAhead(x) && InOrder(x) && SavedInOrder(x)
  }

  lemma StepKeeps(x: Worker, e: Event)
    requires Inv(x) && Enabled(x, e)
    ensures Inv(Next(x, e))
    ensures x.turn <= Next(x, e).turn && x.round <= Next(x, e).round
  {
    hide RootsAhead, InOrder, SavedInOrder;
    OrderKept(x, e);
    SavedKept(x, e);
    match e
    case FetchPage(w) => FetchShaped(x, w);
    case Rewind(_) =>
    case Take(_) =>
      assert forall k :: k in x.left[1..] ==> k in x.left;
    case Finish(_) =>
    case Save(_, _) =>
  }

  lemma FetchShaped(x: Worker, w: World)
    requires Shaped(x) && Enabled(x, FetchPage(w))
    ensures Shaped(Next(x, FetchPage(w)))
  {
    hide FetchAt;
    if FetchAt(x.cursor, w).after.Some? {
      PageMovesForward(x.cursor, w);
    }
  }

  lemma OrderKept(x: Worker, e: Event)
    requires Shaped(x) && RootsAhead(x) && InOrder(x) && Enabled(x, e)
    ensures RootsAhead(Next(x, e)) && InOrder(Next(x, e))
  {
    hide FetchAt;
    var y := Next(x, e);
    if e.FetchPage? && FetchAt(x.cursor, e.w).after.Some? {
      PageMovesForward(x.cursor, e.w);
      assert NotLater(x.cursor, y.cursor);
      forall i | 0 <= i < |y.visits|
        ensures Before(y.visits[i], y.cursor, y.round, y.turn)
      {
        if i < |x.visits| {
          assert Before(x.visits[i], x.cursor, x.round, x.turn);
        }
      }
    }
  }

  lemma SavedKept(x: Worker, e: Event)
    requires Inv(x) && Enabled(x, e)
    ensures SavedInOrder(Next(x, e))
  {
    hide RootsAhead, FetchAt;
    var y := Next(x, e);
    if e.FetchPage? && FetchAt(x.cursor, e.w).after.Some? {
      PageMovesForward(x.cursor, e.w);
    }
    if e.Save? {
      SaveInOrder(x, e.checkpoint, e.round);
    } else {
      forall n | 0 <= n < |y.visits| && Outstanding(y, n)
        ensures SavedBefore(y, y.visits[n])
      {
        OutstandingBefore(x, e, n);
      }
    }
  }

  /** A page with outstanding work had some before, or was just fetched. */
  lemma OutstandingBefore(x: Worker, e: Event, n: int)
    requires Shaped(x) && Enabled(x, e) && Outstanding(Next(x, e), n) && 0 <= n < |Next(x, e).visits|
    ensures n < |x.visits| ==> Outstanding(x, n) && Next(x, e).visits[n] == x.visits[n]
    ensures n >= |x.visits| ==>
              && e.FetchPage? && Next(x, e).visits[n].start == x.cursor
              && Next(x, e).visits[n].round == x.round && Next(x, e).visits[n].turn == x.turn
  {
    hide FetchAt;
  }

  /** A position saved comes from the earliest outstanding page or, without one, from what comes next. */
  lemma SaveInOrder(x: Worker, checkpoint: Position, round: nat)
    requires Shaped(x) && InOrder(x) && IsCheckpoint(x.tracked, x.Boundary(), checkpoint) && IsRound(x, round)
    ensures SavedInOrder(x.(saved := checkpoint, savedRound := round))
  {
    var y := x.(saved := checkpoint, savedRound := round);
    assert Before(x.visits[x.Sequence()], x.cursor, x.round, x.turn);
    if x.tracked != map[] {
      var id :| Earliest(x.tracked, id) && round == x.visits[x.tracked[id].0].round;
      var e := x.tracked[id].0;
      SavedFrom(x, checkpoint, id);
      assert Before(x.visits[e], x.cursor, x.round, x.turn);
      forall n | 0 <= n < |y.visits| && Outstanding(y, n)
        ensures SavedBefore(y, y.visits[n])
      {
        assert Outstanding(x, n) && e <= n;
        assert Before(x.visits[e], x.visits[n].start, x.visits[n].round, x.visits[n].turn);
      }
    }
  }

  /** The saved position is the start of the earliest page, lowered to the boundary in the live lane. */
  lemma SavedFrom(x: Worker, checkpoint: Position, id: Id)
    requires Shaped(x) && IsCheckpoint(x.tracked, x.Boundary(), checkpoint) && Earliest(x.tracked, id)
    ensures var page := x.visits[x.tracked[id].0].start;
            checkpoint == if Lower(x.Boundary().live, page.live) then page.(live := x.Boundary().live) else page
  {
    var page, first :| Earliest(x.tracked, first) && x.tracked[first].1 == page
                       && checkpoint == if Lower(x.Boundary().live, page.live) then page.(live := x.Boundary().live) else page;
    assert x.tracked[first].0 == x.tracked[id].0;
  }

  lemma {:induction false} RunKeeps(x: Worker, events: seq<Event>, y: Worker)
    requires Inv(x) && Run(x, events, y)
    ensures Inv(y) && x.turn <= y.turn && x.round <= y.round
    decreases |events|
  {
    if events != [] {
      StepKeeps(x, events[0]);
      RunKeeps(Next(x, events[0]), events[1..], y);
    }
  }

  lemma LoadedInv(boundary: nat, start: nat, saved: Position)
    requires saved.live.Some? ==> CursorOk(saved.live.value)
    ensures Inv(Loaded(boundary, start, saved))
  {
  }

  // ----- outstanding work -----

  /** Page `n` has a root whose job is running or that is still to be admitted. */
  ghost predicate Outstanding(x: Worker, n: int)
    requires x.visits != []
  {
    (exists id :: id in x.tracked && x.tracked[id].0 == n) || (x.left != [] && n == x.Sequence())
  }

  /** Position `c` is not later than any page with outstanding work, nor than what comes next. */
  ghost predicate Safe(c: Position, x: Worker)
    requires x.visits != []
  {
    && NotLater(c, x.cursor)
    && forall n | 0 <= n < |x.visits| && Outstanding(x, n) :: NotLater(c, x.visits[n].start)
  }

  /** No new cycle was begun since the earliest page with outstanding work. */
  ghost predicate WithinCycle(x: Worker)
    requires x.visits != []
  {
    forall n | 0 <= n < |x.visits| && Outstanding(x, n) :: x.visits[n].round == x.round
  }

  /** Nor was the live lane rewound. */
  ghost predicate Unbroken(x: Worker)
    requires x.visits != []
  {
    WithinCycle(x) && forall n | 0 <= n < |x.visits| && Outstanding(x, n) :: x.visits[n].turn == x.turn
  }

  /** The first outstanding page since a rewind or the start of a cycle. */
  ghost predicate Leads(x: Worker, n: int)
    requires x.visits != []
  {
    && 0 <= n < |x.visits| && Outstanding(x, n)
    && forall m | 0 <= m < n && Outstanding(x, m) :: x.visits[m].turn != x.visits[n].turn || x.visits[m].round != x.visits[n].round
  }

  // ----- the position that is saved -----

  /** Whatever rewinds and cycles there were, the position to save is not later than any outstanding page nor than what
      comes next exactly if it is not later than the first outstanding pages since each of them, and its backfill
      cursor not later than the present one. */
  lemma SaveIff(x: Worker, checkpoint: Position)
    requires Inv(x) && IsCheckpoint(x.tracked, x.Boundary(), checkpoint)
    ensures Safe(checkpoint, x) <==>
              && LaneNotLater(checkpoint.backfill, x.cursor.backfill)
              && forall n | Leads(x, n) :: NotLater(checkpoint, x.visits[n].start)
  {
    LiveWithinBoundary(x, checkpoint);
    if forall n | Leads(x, n) :: NotLater(checkpoint, x.visits[n].start) {
      forall n | 0 <= n < |x.visits| && Outstanding(x, n)
        ensures NotLater(checkpoint, x.visits[n].start)
      {
        LedEarly(x, checkpoint, n);
      }
    }
  }

  /** The live cursor to save never passes the present one. */
  lemma LiveWithinBoundary(x: Worker, checkpoint: Position)
    requires Inv(x) && IsCheckpoint(x.tracked, x.Boundary(), checkpoint)
    ensures !Lower(x.Boundary().live, checkpoint.live) && !Lower(x.cursor.live, checkpoint.live)
  {
    hide RootsAhead, SavedInOrder;
    assert Before(x.visits[x.Sequence()], x.cursor, x.round, x.turn);
  }

  lemma {:induction false} LedEarly(x: Worker, checkpoint: Position, n: nat)
    requires Inv(x) && n < |x.visits| && Outstanding(x, n)
    requires forall m | Leads(x, m) :: NotLater(checkpoint, x.visits[m].start)
    ensures NotLater(checkpoint, x.visits[n].start)
    decreases n
  {
    hide RootsAhead, SavedInOrder, Shaped;
    if m :| 0 <= m < n && Outstanding(x, m) && x.visits[m].turn == x.visits[n].turn && x.visits[m].round == x.visits[n].round {
      LedEarly(x, checkpoint, m);
      assert Before(x.visits[m], x.visits[n].start, x.visits[n].round, x.visits[n].turn);
    } else {
      assert Leads(x, n);
    }
  }

  /** Within a cycle the live cursors decide, however many rewinds there were. */
  lemma SaveWithinCycleIff(x: Worker, checkpoint: Position)
    requires Inv(x) && WithinCycle(x) && IsCheckpoint(x.tracked, x.Boundary(), checkpoint)
    ensures Safe(checkpoint, x) <==> forall n | Leads(x, n) :: !Lower(x.visits[n].start.live, checkpoint.live)
  {
    SaveIff(x, checkpoint);
    BackfillEarly(x, checkpoint);
  }

  lemma BackfillEarly(x: Worker, checkpoint: Position)
    requires Inv(x) && WithinCycle(x) && IsCheckpoint(x.tracked, x.Boundary(), checkpoint)
    ensures LaneNotLater(checkpoint.backfill, x.cursor.backfill)
    ensures forall n | 0 <= n < |x.visits| && Outstanding(x, n) :: LaneNotLater(checkpoint.backfill, x.visits[n].start.backfill)
  {
    hide RootsAhead, IsCheckpoint;
    var round := SomeRound(x);
    SaveInOrder(x, checkpoint, round);
    var y := x.(saved := checkpoint, savedRound := round);
    forall n | 0 <= n < |x.visits| && Outstanding(x, n)
      ensures LaneNotLater(checkpoint.backfill, x.visits[n].start.backfill)
    {
      assert Outstanding(y, n);
      assert SavedBefore(y, y.visits[n]);
    }
  }

  /** Within a cycle the earliest page belongs to it. */
  lemma SomeRound(x: Worker) returns (round: nat)
    requires Shaped(x) && WithinCycle(x)
    ensures IsRound(x, round) && round == x.round
  {
    round := x.round;
    if x.tracked != map[] {
      EarliestExists(x.tracked);
      var id :| Earliest(x.tracked, id);
      assert Outstanding(x, x.tracked[id].0);
    }
  }

  /** The position is not later in the live lane than the first outstanding page, from which it is taken. */
  lemma FirstLeads(x: Worker, checkpoint: Position, n: nat)
    requires Inv(x) && IsCheckpoint(x.tracked, x.Boundary(), checkpoint)
    requires n < |x.visits| && Outstanding(x, n) && forall m | 0 <= m < n :: !Outstanding(x, m)
    ensures !Lower(x.visits[n].start.live, checkpoint.live)
  {
    hide RootsAhead, SavedInOrder, InOrder;
    LiveWithinBoundary(x, checkpoint);
    if x.tracked != map[] {
      EarliestExists(x.tracked);
      var id :| Earliest(x.tracked, id);
      assert Outstanding(x, x.tracked[id].0);
      SavedFrom(x, checkpoint, id);
      hide IsCheckpoint;
      assert x.tracked[id].0 == n;
    }
  }

  /** Without a rewind since the earliest outstanding page the saved position is safe. */
  lemma CheckpointIsEarly(x: Worker, checkpoint: Position)
    requires Inv(x) && Unbroken(x) && IsCheckpoint(x.tracked, x.Boundary(), checkpoint)
    ensures Safe(checkpoint, x)
  {
    hide RootsAhead, SavedInOrder;
  }

  /** After one rewind it takes one comparison: with the first outstanding page fetched since.  If there is none, the
      saved position is safe. */
  lemma OneRewind(x: Worker, checkpoint: Position, first: Id)
    requires Inv(x) && WithinCycle(x) && IsCheckpoint(x.tracked, x.Boundary(), checkpoint)
    requires Earliest(x.tracked, first) && x.visits[x.tracked[first].0].turn + 1 == x.turn
    ensures Safe(checkpoint, x) <==>
              forall n | Leads(x, n) && x.visits[n].turn == x.turn :: !Lower(x.visits[n].start.live, checkpoint.live)
    ensures forall m, n | Leads(x, m) && Leads(x, n) && x.visits[m].turn == x.turn == x.visits[n].turn :: m == n
  {
    SaveWithinCycleIff(x, checkpoint);
    forall m, n | 0 <= m < n < |x.visits| && Outstanding(x, m) && Outstanding(x, n) && x.visits[n].turn != x.turn
      ensures x.visits[m].turn == x.visits[n].turn && x.visits[m].round == x.visits[n].round
    {
      SameTurn(x, first, m, n);
    }
    hide Inv, Safe, IsCheckpoint, Outstanding;
    forall n | Leads(x, n) && x.visits[n].turn != x.turn
      ensures !Lower(x.visits[n].start.live, checkpoint.live)
    {
      FirstLeads(x, checkpoint, n);
    }
  }

  /** Outstanding pages before the rewind are of one turn. */
  lemma SameTurn(x: Worker, first: Id, m: nat, n: nat)
    requires Inv(x) && WithinCycle(x) && Earliest(x.tracked, first)
    requires m < n < |x.visits| && Outstanding(x, m) && Outstanding(x, n)
    requires x.visits[x.tracked[first].0].turn + 1 == x.turn && x.visits[n].turn != x.turn
    ensures x.visits[m].turn == x.visits[n].turn && x.visits[m].round == x.visits[n].round
  {
    hide RootsAhead, SavedInOrder;
    var e := x.tracked[first].0;
    assert Outstanding(x, e) && e <= m;
    assert Before(x.visits[e], x.visits[m].start, x.visits[m].round, x.visits[m].turn);
    assert Before(x.visits[m], x.visits[n].start, x.visits[n].round, x.visits[n].turn);
    assert Before(x.visits[n], x.cursor, x.round, x.turn);
  }

  // ----- a crash at any time -----

  ghost predicate Settled(x: Worker)
    requires x.visits != []
  {
    Unbroken(x) && Safe(x.saved, x)
  }

  /** Saving settles a worker whose run is unbroken. */
  lemma SaveSettles(x: Worker, checkpoint: Position, round: nat)
    requires Inv(x) && Unbroken(x) && Enabled(x, Save(checkpoint, round))
    ensures Settled(Next(x, Save(checkpoint, round)))
  {
    CheckpointIsEarly(x, checkpoint);
    var y := Next(x, Save(checkpoint, round));
    assert forall n :: Outstanding(y, n) <==> Outstanding(x, n);
  }

  lemma StepSettled(x: Worker, e: Event)
    requires Inv(x) && Settled(x) && Enabled(x, e)
    requires Next(x, e).turn == x.turn && Next(x, e).round == x.round
    ensures Settled(Next(x, e))
  {
    hide RootsAhead, InOrder, SavedInOrder, FetchAt;
    var y := Next(x, e);
    if e.Save? {
      SaveSettles(x, e.checkpoint, e.round);
    } else {
      if e.FetchPage? {
        PageMovesForward(x.cursor, e.w);
        NotLaterTransitive(x.saved, x.cursor, y.cursor);
      }
      forall n | 0 <= n < |y.visits| && Outstanding(y, n)
        ensures y.visits[n].round == y.round && y.visits[n].turn == y.turn && NotLater(y.saved, y.visits[n].start)
      {
        OutstandingBefore(x, e, n);
      }
    }
  }

  /** Once a position is saved without a rewind behind it, it stays safe, and so does every position saved later,
      until the next rewind or cycle: pages fetched and roots admitted meanwhile are not later either. */
  lemma {:induction false} StaysSettled(x: Worker, events: seq<Event>, y: Worker)
    requires Inv(x) && Settled(x) && Run(x, events, y) && y.turn == x.turn && y.round == x.round
    ensures Inv(y) && Settled(y)
    decreases |events|
  {
    if events != [] {
      StepKeeps(x, events[0]);
      RunKeeps(Next(x, events[0]), events[1..], y);
      StepSettled(x, events[0]);
      StaysSettled(Next(x, events[0]), events[1..], y);
    }
  }

  /** A rewind keeps a position safe exactly if it is not behind the height rewound to. */
  lemma RewindKeepsIff(x: Worker, c: Position, stable: nat)
    requires Inv(x) && Enabled(x, Rewind(stable)) && Safe(c, x)
    ensures Safe(c, Next(x, Rewind(stable))) <==> !Lower(EndOf(stable), c.live)
  {
  }

  function EndOf(h: nat): Option<Cursor> {
    Some(Cursor(h, MAX_POSITION, 1, MAX_ID))
  }

  // ----- what a restart finds -----

  /** A root of page `n` whose job is running, or that is still to be admitted. */
  ghost predicate Waits(x: Worker, n: nat, root: Cursor)
    requires x.visits != []
  {
    && n < |x.visits| && root in x.visits[n].roots
    && ((root.id in x.tracked && x.tracked[root.id].0 == n) || (n == x.Sequence() && root in x.left))
  }

  /** A restart loads the saved position and rewinds its live lane to the checkpoint of that time. */
  ghost function Restarted(saved: Position, stable: nat): Position {
    Position(Rewound(saved.live, stable), saved.backfill)
  }

  lemma FoundIff(w: World, p: Position, root: Cursor)
    requires ChainOk(w.chain) && Wanted(w, root)
    ensures root in Rest(w, p.live, p.backfill) <==> Ahead(w.boundary, p, root)
  {
    LaneMembers(w.chain, w.LiveLow(), w.metadata, false, p.live);
    LaneMembers(w.chain, w.start, w.BackfillHigh(), true, p.backfill);
    assert root in w.Live(p.live) <==> Pending(w.chain, w.LiveLow(), w.metadata, false, p.live, root);
    assert root in w.Backfill(p.backfill) <==> Pending(w.chain, w.start, w.BackfillHigh(), true, p.backfill, root);
  }

  /** What a crash and restart do to a waiting root that is still pending, after any run from a loaded position, with
      any number of rewinds and cycles. A root of the live lane is found again by the cycle restarted exactly if it
      lies above the checkpoint of the restart or ahead of the saved live cursor. A root of the backfill lane is found
      exactly if its page is of the cycle of the saved position, or it lies ahead of the saved backfill cursor.
      The next cycle finds either in any case. */
  lemma RestartFindsIff(boundary: nat, start: nat, loaded: Position, events: seq<Event>, y: Worker,
                        n: nat, root: Cursor, w: World, stable: nat)
    requires (loaded.live.Some? ==> CursorOk(loaded.live.value)) && Run(Loaded(boundary, start, loaded), events, y)
    requires y.visits != [] && Waits(y, n, root)
    requires ChainOk(w.chain) && Wanted(w, root) && w.boundary == y.boundary
    ensures var p := Restarted(y.saved, stable);
            root in Rest(w, p.live, p.backfill) <==>
              if root.height > y.boundary then root.height > stable || Past(false, y.saved.live, root)
              else y.visits[n].round == y.savedRound || Past(true, y.saved.backfill, root)
    ensures root in Rest(w, None, None)
  {
    LoadedInv(boundary, start, loaded);
    RunKeeps(Loaded(boundary, start, loaded), events, y);
    assert Outstanding(y, n);
    assert SavedBefore(y, y.visits[n]);
    assert Ahead(y.boundary, y.visits[n].start, root);
    FoundIff(w, Restarted(y.saved, stable), root);
    FoundIff(w, Position(None, None), root);
    RewoundPast(w.chain, y.saved.live, stable, root);
  }

  /** Until a new cycle begins, every waiting root of the backfill lane is found again. */
  lemma FirstCycleFindsIff(boundary: nat, start: nat, loaded: Position, events: seq<Event>, y: Worker,
                           n: nat, root: Cursor, w: World, stable: nat)
    requires (loaded.live.Some? ==> CursorOk(loaded.live.value)) && Run(Loaded(boundary, start, loaded), events, y)
    requires y.round == 0 && y.visits != [] && Waits(y, n, root)
    requires ChainOk(w.chain) && Wanted(w, root) && w.boundary == y.boundary
    ensures var p := Restarted(y.saved, stable);
            root in Rest(w, p.live, p.backfill) <==>
              root.height <= y.boundary || root.height > stable || Past(false, y.saved.live, root)
  {
    LoadedInv(boundary, start, loaded);
    RunKeeps(Loaded(boundary, start, loaded), events, y);
    RestartFindsIff(boundary, start, loaded, events, y, n, root, w, stable);
    assert Before(y.visits[n], y.cursor, y.round, y.turn);
  }

  /** A crash at any point after a position was saved in an unbroken run: until the next rewind or cycle, every waiting
      root that is still pending is found again from the position saved by then, in the cycle that was running. */
  lemma WaitingRootsSurviveRestart(boundary: nat, start: nat, loaded: Position, before: seq<Event>, x: Worker,
                                   checkpoint: Position, round: nat, events: seq<Event>, y: Worker,
                                   n: nat, root: Cursor, w: World, stable: nat)
    requires (loaded.live.Some? ==> CursorOk(loaded.live.value)) && Run(Loaded(boundary, start, loaded), before, x)
    requires x.visits != [] && Unbroken(x) && Enabled(x, Save(checkpoint, round))
    requires Run(Next(x, Save(checkpoint, round)), events, y) && y.turn == x.turn && y.round == x.round
    requires y.visits != [] && Waits(y, n, root)
    requires ChainOk(w.chain) && Wanted(w, root) && w.boundary == y.boundary
    ensures root in Rest(w, y.saved.live, y.saved.backfill)
    ensures root in Rest(w, Restarted(y.saved, stable).live, Restarted(y.saved, stable).backfill)
  {
    hide Inv, Settled, Unbroken, Waits, IsCheckpoint, IsRound;
    LoadedInv(boundary, start, loaded);
    RunKeeps(Loaded(boundary, start, loaded), before, x);
    StepKeeps(x, Save(checkpoint, round));
    SaveSettles(x, checkpoint, round);
    StaysSettled(Next(x, Save(checkpoint, round)), events, y);
    SettledFinds(y, n, root, w, stable);
  }

  lemma SettledFinds(y: Worker, n: nat, root: Cursor, w: World, stable: nat)
    requires Inv(y) && Settled(y) && Waits(y, n, root)
    requires ChainOk(w.chain) && Wanted(w, root) && w.boundary == y.boundary
    ensures root in Rest(w, y.saved.live, y.saved.backfill)
    ensures root in Rest(w, Restarted(y.saved, stable).live, Restarted(y.saved, stable).backfill)
  {
    assert Outstanding(y, n);
    assert Ahead(y.boundary, y.visits[n].start, root);
    FoundIff(w, y.saved, root);
    FoundIff(w, Restarted(y.saved, stable), root);
    RewoundPast(w.chain, y.saved.live, stable, root);
  }

  // ----- a root that its cycle skips -----

  const OLD := Cursor(20, 0, 0, 2)
  const NEW := Cursor(40, 0, 0, 1)

  /** Two blocks with one root each, of which the first fails and stays pending. */
  ghost function Store(metadata: nat): World {
    World(seq(41, (h: nat) => if h == 20 then [Root(0, 2, false)] else if h == 40 then [Root(0, 1, false)] else []), metadata, 0, 0)
  }

  lemma StoreRoots(metadata: nat, k: Cursor)
    ensures ChainOk(Store(metadata).chain)
    ensures k.height < 41 && IsRoot(k.height, Store(metadata).chain[k.height], k) <==> k == OLD || k == NEW
  {
    var chain := Store(metadata).chain;
    assert chain[20][0] == Root(0, 2, false) && chain[40][0] == Root(0, 1, false);
    assert k == OLD ==> IsRoot(k.height, chain[k.height], k);
    assert k == NEW ==> IsRoot(k.height, chain[k.height], k);
  }

  /** A page of the live lane, by its members. */
  lemma LivePageIs(w: World, p: Position, roots: seq<Cursor>)
    requires ChainOk(w.chain) && w.boundary < w.metadata && w.start <= w.metadata && 0 < |roots| <= PAGE
    requires Sorted(false, roots)
    requires forall k :: k in roots <==> Pending(w.chain, w.LiveLow(), LiveHigh(w, p.live), false, p.live, k)
    ensures FetchAt(p, w) == Page(roots, Some(roots[|roots| - 1]), false)
  {
    var high := LiveHigh(w, p.live);
    LaneMembers(w.chain, w.LiveLow(), high, false, p.live);
    SortedUnique(false, Lane(w.chain, w.LiveLow(), high, false, p.live), roots);
    PageOfPages(w.chain, w.LiveLow(), high, false, p.live);
  }

  lemma StorePage(metadata: nat, p: Position, roots: seq<Cursor>)
    requires 0 < metadata <= 40 && 0 < |roots| <= PAGE && Sorted(false, roots)
    requires p.live.Some? ==> p.live.value.height <= metadata
    requires forall k :: k in roots <==> (k == OLD || k == NEW) && 1 <= k.height <= metadata && Past(false, p.live, k)
    ensures ChainOk(Store(metadata).chain)
    ensures FetchAt(p, Store(metadata)) == Page(roots, Some(roots[|roots| - 1]), false)
  {
    var w := Store(metadata);
    StoreRoots(metadata, OLD);
    forall k
      ensures k in roots <==> Pending(w.chain, w.LiveLow(), LiveHigh(w, p.live), false, p.live, k)
    {
      StoreRoots(metadata, k);
    }
    LivePageIs(w, p, roots);
  }

  const P0 := Position(None, None)
  const P1 := Position(Some(OLD), None)
  const P2 := Position(Some(NEW), None)
  const BACK := Position(EndOf(10), None)

  const V0 := Visit(P0, [], 0, 0)
  const V1 := Visit(P0, [OLD], 0, 0)
  const V2 := Visit(P1, [NEW], 0, 0)
  const V3 := Visit(BACK, [OLD, NEW], 0, 1)

  const X1 := Worker(0, 0, P1, [OLD], map[], P0, 0, [V0, V1], 0, 0)
  const X2 := Worker(0, 0, P1, [], map[2 := (1, P0)], P0, 0, [V0, V1], 0, 0)
  const X3 := Worker(0, 0, P1, [], map[], P0, 0, [V0, V1], 0, 0)
  const X4 := Worker(0, 0, P2, [NEW], map[], P0, 0, [V0, V1, V2], 0, 0)
  const X5 := Worker(0, 0, P2, [], map[1 := (2, P1)], P0, 0, [V0, V1, V2], 0, 0)
  const X6 := Worker(0, 0, BACK, [], map[1 := (2, P1)], P0, 0, [V0, V1, V2], 0, 1)
  const X7 := Worker(0, 0, P2, [OLD, NEW], map[1 := (2, P1)], P0, 0, [V0, V1, V2, V3], 0, 1)
  const X8 := Worker(0, 0, P2, [NEW], map[1 := (2, P1), 2 := (3, BACK)], P0, 0, [V0, V1, V2, V3], 0, 1)
  const X9 := Worker(0, 0, P2, [], map[1 := (2, P1), 2 := (3, BACK)], P0, 0, [V0, V1, V2, V3], 0, 1)
  const X10 := Worker(0, 0, P2, [], map[1 := (2, P1), 2 := (3, BACK)], P1, 0, [V0, V1, V2, V3], 0, 1)

  /** One more step in front of a run. */
  lemma Prepend(x: Worker, e: Event, next: Worker, events: seq<Event>, y: Worker) returns (all: seq<Event>)
    requires x.visits != [] && Enabled(x, e) && Next(x, e) == next && Run(next, events, y)
    ensures Run(x, all, y)
  {
    all := [e] + events;
    assert all[1..] == events;
  }

  /** The position of the older page is saved. */
  lemma SaveStep() returns (events: seq<Event>)
    ensures Run(X9, events, X10)
  {
    hide FetchAt;
    assert Earliest(X9.tracked, 1) && X9.tracked[1].1 == P1;
    assert IsCheckpoint(X9.tracked, X9.Boundary(), P1);
    assert X9.visits[2].round == 0 && IsRound(X9, 0);
    events := Prepend(X9, Save(P1, 0), X10, [], X10);
  }

  /** Before that, the root is found again by the rewound lane and admitted. */
  lemma LastSteps() returns (events: seq<Event>)
    ensures Run(X6, events, X10)
  {
    events := SaveStep();
    hide Run, FetchAt;
    assert X8.left[1..] == [] && X7.left[1..] == [NEW];
    events := Prepend(X8, Take(true), X9, events, X10);
    assert X7.tracked[2 := (3, BACK)] == X8.tracked;
    events := Prepend(X7, Take(true), X8, events, X10);
    StorePage(40, BACK, [OLD, NEW]);
    assert X6.visits + [V3] == X7.visits;
    events := Prepend(X6, FetchPage(Store(40)), X7, events, X10);
  }

  /** The second root is being worked on when the lane is rewound. */
  lemma MiddleSteps() returns (events: seq<Event>)
    ensures Run(X3, events, X10)
  {
    events := LastSteps();
    hide Run, FetchAt;
    events := Prepend(X5, Rewind(10), X6, events, X10);
    assert X4.left[1..] == [];
    assert X4.tracked[1 := (2, P1)] == X5.tracked;
    events := Prepend(X4, Take(true), X5, events, X10);
    StorePage(40, P1, [NEW]);
    assert X3.visits + [V2] == X4.visits;
    events := Prepend(X3, FetchPage(Store(40)), X4, events, X10);
  }

  /** The first root fails. */
  lemma FirstSteps() returns (events: seq<Event>)
    ensures Run(Loaded(0, 0, P0), events, X10)
  {
    events := MiddleSteps();
    hide Run, FetchAt;
    assert X2.tracked - {2} == map[];
    events := Prepend(X2, Finish(2), X3, events, X10);
    assert X1.left[1..] == [];
    assert X1.tracked[2 := (1, P0)] == X2.tracked;
    events := Prepend(X1, Take(true), X2, events, X10);
    StorePage(20, P0, [OLD]);
    assert Loaded(0, 0, P0).visits + [V1] == X1.visits;
    events := Prepend(Loaded(0, 0, P0), FetchPage(Store(20)), X1, events, X10);
  }

  /** A rewind within the unstable window, a crash, and a restart with the checkpoint above a root that was being
      worked on: the cycle saved does not come to that root again. */
  lemma RewindCanSkip() returns (events: seq<Event>, y: Worker, root: Cursor, w: World, stable: nat)
    ensures y.visits != [] && Run(Loaded(0, 0, P0), events, y) && y.turn == 1 && y.round == 0
    ensures Waits(y, 3, root) && ChainOk(w.chain) && Wanted(w, root) && w.boundary == y.boundary && w.metadata <= stable + C.CONSENSUS_DEPTH
    ensures root !in Rest(w, Restarted(y.saved, stable).live, Restarted(y.saved, stable).backfill)
  {
    events := FirstSteps();
    y, root, w, stable := X10, OLD, Store(40), 25;
    StoreRoots(40, OLD);
    FoundIff(w, Restarted(P1, 25), OLD);
  }
}
