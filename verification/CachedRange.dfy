/** The test whether cached chunks cover a byte range, as one ordered scan with a running maximum. */
module CachedRange {

  /** A half-open interval [start, end); stored chunks are never empty. */
  datatype Chunk = Chunk(start: nat, end: nat)

  ghost predicate Stored(chunks: seq<Chunk>) {
    forall i | 0 <= i < |chunks| :: chunks[i].start < chunks[i].end
  }

  predicate Before(a: Chunk, b: Chunk) {
    a.start < b.start || (a.start == b.start && a.end <= b.end)
  }

  ghost predicate Ordered(rows: seq<Chunk>) {
    forall i, j | 0 <= i < j < |rows| :: Before(rows[i], rows[j])
  }

  function Insert(rows: seq<Chunk>, c: Chunk): seq<Chunk> {
    if rows == [] || Before(c, rows[0]) then [c] + rows else [rows[0]] + Insert(rows[1..], c)
  }

  /** ORDER BY start_offset, end_offset. */
  function Sort(rows: seq<Chunk>): seq<Chunk> {
    if rows == [] then [] else Insert(Sort(rows[1..]), rows[0])
  }

  /** The chunks that meet [start, end). */
  function Meeting(chunks: seq<Chunk>, start: nat, end: nat): seq<Chunk> {
    if chunks == [] then []
    else
      var rest := Meeting(chunks[1..], start, end);
      if chunks[0].start < end && chunks[0].end > start then [chunks[0]] + rest else rest
  }

  function MaxEnd(rows: seq<Chunk>): nat
    requires rows != []
  {
    var last := rows[|rows| - 1].end;
    if |rows| == 1 then last
    else
      var before := MaxEnd(rows[..|rows| - 1]);
      if before < last then last else before
  }

  /** Each row starts no later than the largest end of the rows before it; the first row
      is compared with `start` itself. */
  ghost predicate NoGap(rows: seq<Chunk>, start: nat) {
    forall i | 0 <= i < |rows| :: rows[i].start <= if i == 0 then start else MaxEnd(rows[..i])
  }

  ghost predicate RangeComplete(chunks: seq<Chunk>, start: nat, end: nat) {
    start == end ||
    var rows := Sort(Meeting(chunks, start, end));
    rows != [] && rows[0].start <= start && MaxEnd(rows) >= end && NoGap(rows, start)
  }

  ghost predicate Holds(rows: seq<Chunk>, x: nat) {
    exists i :: 0 <= i < |rows| && rows[i].start <= x < rows[i].end
  }

  // ----- ordering and filtering keep the rows -----

  lemma {:induction false} InsertSame(rows: seq<Chunk>, c: Chunk)
    requires Ordered(rows)
    ensures Ordered(Insert(rows, c))
    ensures forall r :: r in Insert(rows, c) <==> r == c || r in rows
  {
    if rows != [] && !Before(c, rows[0]) {
      InsertSame(rows[1..], c);
      assert rows == [rows[0]] + rows[1..];
      var rest := Insert(rows[1..], c);
      forall j | 0 <= j < |rest|
        ensures Before(rows[0], rest[j])
      {
        assert rest[j] in rest;
      }
    }
  }

  lemma {:induction false} SortSame(rows: seq<Chunk>)
    ensures Ordered(Sort(rows))
    ensures forall r :: r in Sort(rows) <==> r in rows
  {
    if rows != [] {
      SortSame(rows[1..]);
      InsertSame(Sort(rows[1..]), rows[0]);
      assert rows == [rows[0]] + rows[1..];
    }
  }

  lemma {:induction false} MeetingSame(chunks: seq<Chunk>, start: nat, end: nat)
    ensures forall r :: r in Meeting(chunks, start, end) <==> r in chunks && r.start < end && r.end > start
  {
    if chunks != [] {
      MeetingSame(chunks[1..], start, end);
      assert chunks == [chunks[0]] + chunks[1..];
    }
  }

  lemma {:induction false} MaxEndIs(rows: seq<Chunk>)
    requires rows != []
    ensures forall i | 0 <= i < |rows| :: rows[i].end <= MaxEnd(rows)
    ensures exists i :: 0 <= i < |rows| && rows[i].end == MaxEnd(rows)
  {
    if |rows| == 1 {
      assert rows[0].end == MaxEnd(rows);
    } else {
      var front := rows[..|rows| - 1];
      MaxEndIs(front);
      var i :| 0 <= i < |front| && front[i].end == MaxEnd(front);
      assert rows[i] == front[i] && rows[|rows| - 1].end <= MaxEnd(rows);
    }
  }

  /** Rows without a gap hold every point up to their largest end. */
  lemma {:induction false} NoGapHolds(rows: seq<Chunk>, start: nat, x: nat)
    requires rows != [] && NoGap(rows, start) && start <= x < MaxEnd(rows)
    ensures Holds(rows, x)
  {
    var last := rows[|rows| - 1];
    if |rows| == 1 {
      assert rows[0].start <= x;
    } else {
      var front := rows[..|rows| - 1];
      if x < MaxEnd(front) {
        forall i | 0 <= i < |front|
          ensures front[i].start <= if i == 0 then start else MaxEnd(front[..i])
        {
          assert front[..i] == rows[..i];
        }
        NoGapHolds(front, start, x);
        var i :| 0 <= i < |front| && front[i].start <= x < front[i].end;
        assert rows[i] == front[i];
      } else {
        assert last.start <= MaxEnd(front);
      }
    }
  }

  /** A gap leaves its first point uncovered: no earlier row reaches it and no later row
      starts before it. */
  lemma GapUncovered(rows: seq<Chunk>, start: nat, i: nat)
    requires Ordered(rows) && i < |rows|
    requires rows[i].start > if i == 0 then start else MaxEnd(rows[..i])
    ensures !Holds(rows, if i == 0 then start else MaxEnd(rows[..i]))
  {
    if i > 0 {
      MaxEndIs(rows[..i]);
    }
    var x := if i == 0 then start else MaxEnd(rows[..i]);
    forall j | 0 <= j < |rows|
      ensures !(rows[j].start <= x < rows[j].end)
    {
      if j < i {
        assert rows[j] == rows[..i][j];
      } else if i < j {
        assert Before(rows[i], rows[j]);
      }
    }
  }

  /** The scan accepts exactly the ranges whose every point lies in some chunk. */
  lemma RangeCompleteIsCoverage(chunks: seq<Chunk>, start: nat, end: nat)
    requires Stored(chunks) && start <= end
    ensures RangeComplete(chunks, start, end) <==> forall x | start <= x < end :: Holds(chunks, x)
  {
    if start < end {
      var met := Meeting(chunks, start, end);
      var rows := Sort(met);
      MeetingSame(chunks, start, end);
      SortSame(met);
      forall x | start <= x < end
        ensures Holds(rows, x) <==> Holds(chunks, x)
      {
        SameHolds(chunks, rows, start, end, x);
      }
      if RangeComplete(chunks, start, end) {
        forall x | start <= x < end
          ensures Holds(chunks, x)
        {
          NoGapHolds(rows, start, x);
        }
      } else if Holds(rows, start) {
        TopUncovered(rows, start);
        if !NoGap(rows, start) {
          var i :| 0 <= i < |rows| && rows[i].start > if i == 0 then start else MaxEnd(rows[..i]);
          GapUncovered(rows, start, i);
          GapInRange(rows, start, end, i);
        }
      }
    }
  }

  lemma TopUncovered(rows: seq<Chunk>, start: nat)
    requires Ordered(rows) && Holds(rows, start)
    ensures rows != [] && rows[0].start <= start < MaxEnd(rows) && !Holds(rows, MaxEnd(rows))
  {
    MaxEndIs(rows);
  }

  lemma GapInRange(rows: seq<Chunk>, start: nat, end: nat, i: nat)
    requires forall r :: r in rows ==> r.start < end && r.end > start
    requires i < |rows| && rows[i].start > if i == 0 then start else MaxEnd(rows[..i])
    ensures start <= (if i == 0 then start else MaxEnd(rows[..i])) < end
  {
    assert rows[i] in rows;
    if i > 0 {
      MaxEndIs(rows[..i]);
      assert rows[0] == rows[..i][0];
    }
  }

  lemma SameHolds(chunks: seq<Chunk>, rows: seq<Chunk>, start: nat, end: nat, x: nat)
    requires start <= x < end
    requires forall r :: r in rows <==> r in chunks && r.start < end && r.end > start
    ensures Holds(rows, x) <==> Holds(chunks, x)
  {
    if Holds(chunks, x) {
      var i :| 0 <= i < |chunks| && chunks[i].start <= x < chunks[i].end;
      assert chunks[i] in rows;
    }
    if Holds(rows, x) {
      var i :| 0 <= i < |rows| && rows[i].start <= x < rows[i].end;
      assert rows[i] in rows;
    }
  }
}
