/** The admission protocol of the content cache. */
module DiskAdmission {
  import opened Sequences
  import opened Wrappers

  // A write reserves bytes, later reads the total of all reservations, then asks the file system for
  // its free space, and only then starts writing. No lock covers the three accesses, so any other
  // write may run between them.

  const MAX_WORD: nat := 0xFFFF_FFFF_FFFF_FFFF

  /** Where one cache write stands.  `total` is the sum of reservations it read and
      `mark` the number of reservations made before that read. */
  datatype Phase =
    | Queued
    | Measured(total: nat, mark: nat)
    | Writing
    | Closed   // writes no more bytes, reservation still held
    | Gone     // reservation returned

  datatype Write = Write(size: nat, phase: Phase, onDisk: nat) {
    /** Empty blobs are charged one byte. */
    ghost function Charge(): nat { if size == 0 then 1 else size }
  }

  /** `writes` lists every write in reservation order.  `mark` is history only: the
      largest `Measured.mark` any admitted write carried. */
  datatype Cache = Cache(minFree: nat, maxPending: nat, pending: nat, free: int, writes: seq<Write>, mark: nat)

  datatype Event =
    | Reserve(size: nat)
    | Measure(i: nat)            // read the sum of reservations
    | Check(i: nat)              // compare free space with minFree + that sum
    | Append(i: nat, count: nat) // write some bytes of the temporary file
    | Close(i: nat)              // published, refused, failed or cancelled
    | Remove(i: nat)             // delete the temporary file
    | Release(i: nat)            // return the reservation
    | Reclaim(count: nat)        // eviction or a repair frees space

  // ----- one step -----

  ghost predicate Fits(c: Cache, size: nat) {
    var charge := if size == 0 then 1 else size;
    c.pending + charge <= MAX_WORD && c.pending + charge <= c.maxPending
  }

  ghost predicate Admissible(c: Cache, total: nat) {
    c.minFree + total <= MAX_WORD && c.free >= c.minFree + total
  }

  ghost predicate Enabled(c: Cache, e: Event) {
    match e
    case Reserve(size) => Fits(c, size)
    case Measure(i) => i < |c.writes| && c.writes[i].phase.Queued?
    case Check(i) => i < |c.writes| && c.writes[i].phase.Measured?
    case Append(i, count) =>
      i < |c.writes| && c.writes[i].phase.Writing? && c.writes[i].onDisk + count <= c.writes[i].size
    case Close(i) => i < |c.writes| && !c.writes[i].phase.Gone?
    case Remove(i) => i < |c.writes| && (c.writes[i].phase.Closed? || c.writes[i].phase.Gone?)
    case Release(i) => i < |c.writes| && c.writes[i].phase.Closed?
    case Reclaim(count) => true
  }

  ghost function SetPhase(c: Cache, i: nat, phase: Phase): Cache
    requires i < |c.writes|
  {
    c.(writes := c.writes[i := c.writes[i].(phase := phase)])
  }

  ghost function Next(c: Cache, e: Event): Cache
    requires Enabled(c, e)
  {
    match e
    case Reserve(size) =>
      var w := Write(size, Queued, 0);
      c.(pending := c.pending + w.Charge(), writes := c.writes + [w])
    case Measure(i) => SetPhase(c, i, Measured(c.pending, |c.writes|))
    case Check(i) =>
      var seen := c.writes[i].phase;
      if Admissible(c, seen.total) then
        SetPhase(c, i, Writing).(mark := if c.mark < seen.mark then seen.mark else c.mark)
      else
        SetPhase(c, i, Closed)
    case Append(i, count) =>
      c.(free := c.free - count, writes := c.writes[i := c.writes[i].(onDisk := c.writes[i].onDisk + count)])
    case Close(i) => SetPhase(c, i, Closed)
    case Remove(i) =>
      c.(free := c.free + c.writes[i].onDisk, writes := c.writes[i := c.writes[i].(onDisk := 0)])
    case Release(i) =>
      var held := c.writes[i].Charge();
      SetPhase(c.(pending := if held <= c.pending then c.pending - held else 0), i, Gone)
    case Reclaim(count) => c.(free := c.free + count)
  }

  // ----- sums -----

  /** What a write's reservation holds. */
  ghost function Held(w: Write): nat { if w.phase.Gone? then 0 else w.Charge() }

  /** What a write may still put on disk, counting writes that are not admitted yet in full. */
  ghost function Exposure(w: Write): nat {
    match w.phase
    case Queued => w.Charge()
    case Measured(_, _) => w.Charge()
    case Writing => if w.onDisk <= w.size then w.size - w.onDisk else 0
    case _ => 0
  }

  /** What an admitted write still has to put on disk. */
  ghost function Unwritten(w: Write): nat {
    if w.phase.Writing? && w.onDisk <= w.size then w.size - w.onDisk else 0
  }

  lemma SumUpdate(ws: seq<Write>, i: nat, w: Write, f: Write -> nat)
    requires i < |ws|
    ensures Sum(ws[i := w], f) + f(ws[i]) == Sum(ws, f) + f(w)
  {
    assert ws == ws[..i] + ([ws[i]] + ws[i + 1..]);
    assert ws[i := w] == ws[..i] + ([w] + ws[i + 1..]);
    SumConcat(ws[..i], [ws[i]] + ws[i + 1..], f);
    SumConcat(ws[..i], [w] + ws[i + 1..], f);
  }

  ghost function OnDisk(w: Write): nat { w.onDisk }

  /** No step makes or loses space: free space and what the writes have on disk change together, unless space is freed
      elsewhere. */
  lemma SpaceConserved(c: Cache, e: Event)
    requires Enabled(c, e)
    ensures Next(c, e).free + Sum(Next(c, e).writes, OnDisk)
         == c.free + Sum(c.writes, OnDisk) + if e.Reclaim? then e.count else 0
  {
    hide Sum;
    var d := Next(c, e);
    match e
    case Reserve(size) =>
      SumConcat(c.writes, [Write(size, Queued, 0)], OnDisk);
      assert Sum([Write(size, Queued, 0)], OnDisk) == 0 by { SumOne(Write(size, Queued, 0)); }
    case Reclaim(_) =>
    case Measure(i) => SumUpdate(c.writes, i, d.writes[i], OnDisk);
    case Check(i) => SumUpdate(c.writes, i, d.writes[i], OnDisk);
    case Append(i, _) => SumUpdate(c.writes, i, d.writes[i], OnDisk);
    case Close(i) => SumUpdate(c.writes, i, d.writes[i], OnDisk);
    case Remove(i) => SumUpdate(c.writes, i, d.writes[i], OnDisk);
    case Release(i) => SumUpdate(c.writes, i, d.writes[i], OnDisk);
  }

  lemma SumOne(w: Write)
    ensures Sum([w], OnDisk) == w.onDisk
  {
    assert [w][1..] == [];
  }

  /** The effect of one changed write on the sum of a prefix. */
  lemma PrefixUpdate(ws: seq<Write>, i: nat, w: Write, n: nat, f: Write -> nat)
    requires i < |ws| && n <= |ws|
    ensures Sum(ws[i := w][..n], f) + (if i < n then f(ws[i]) else 0)
         == Sum(ws[..n], f) + (if i < n then f(w) else 0)
  {
    if i < n {
      assert ws[i := w][..n] == ws[..n][i := w];
      SumUpdate(ws[..n], i, w, f);
    } else {
      assert ws[i := w][..n] == ws[..n];
    }
  }

  lemma {:induction false} SumBelow(ws: seq<Write>, f: Write -> nat, g: Write -> nat)
    requires forall w :: f(w) <= g(w)
    ensures Sum(ws, f) <= Sum(ws, g)
  {
    if ws != [] {
      SumBelow(ws[1..], f, g);
    }
  }

  lemma {:induction false} SumZero(ws: seq<Write>, f: Write -> nat)
    requires forall w :: w in ws ==> f(w) == 0
    ensures Sum(ws, f) == 0
  {
    if ws != [] {
      SumZero(ws[1..], f);
    }
  }

  // ----- invariant -----

  ghost predicate WriteOk(c: Cache, i: nat)
    requires i < |c.writes|
  {
    var w := c.writes[i];
    && w.onDisk <= w.size
    && (w.phase.Queued? || w.phase.Measured? ==> w.onDisk == 0)
    && (w.phase.Writing? ==> i < c.mark)
    && (w.phase.Measured? ==>
          && i < w.phase.mark <= |c.writes|
          && Sum(c.writes[..w.phase.mark], Held) <= w.phase.total)
  }

  ghost predicate Inv(c: Cache) {
    && c.pending == Sum(c.writes, Held)
    && c.pending <= c.maxPending
    && c.mark <= |c.writes|
    && (forall i :: 0 <= i < |c.writes| ==> WriteOk(c, i))
    && (c.mark > 0 ==> c.free >= c.minFree + Sum(c.writes[..c.mark], Exposure))
  }

  ghost predicate Fresh(c: Cache) {
    c.writes == [] && c.pending == 0 && c.mark == 0
  }

  /** Changing the phase or the bytes of one write, with the held sums not growing. */
  lemma TouchKeeps(c: Cache, i: nat, w: Write, d: Cache)
    requires Inv(c) && i < |c.writes|
    requires w.size == c.writes[i].size && Held(w) <= Held(c.writes[i])
    requires d.writes == c.writes[i := w] && c.mark <= d.mark <= |c.writes|
    requires w.phase.Measured? ==> Sum(c.writes, Held) <= w.phase.total && w.phase.mark == |c.writes|
    requires w.onDisk <= w.size && (w.phase.Queued? || w.phase.Measured? ==> w.onDisk == 0)
    requires w.phase.Writing? ==> i < d.mark
    ensures forall j :: 0 <= j < |d.writes| ==> WriteOk(d, j)
    ensures Sum(d.writes, Held) == Sum(c.writes, Held) - Held(c.writes[i]) + Held(w)
  {
    SumUpdate(c.writes, i, w, Held);
    forall j | 0 <= j < |d.writes|
      ensures WriteOk(d, j)
    {
      if j == i {
        assert d.writes[..|d.writes|] == d.writes;
      } else {
        assert WriteOk(c, j);
        if c.writes[j].phase.Measured? {
          PrefixUpdate(c.writes, i, w, c.writes[j].phase.mark, Held);
        }
      }
    }
  }

  lemma ExposureWithinHeld(ws: seq<Write>)
    ensures Sum(ws, Exposure) <= Sum(ws, Held)
  {
    SumBelow(ws, Exposure, Held);
  }

  /** The interleaving argument.  A write admitted on an old total is harmless when a
      later measurement has been admitted already, because that later total counted it. */
  lemma CheckKeeps(c: Cache, i: nat)
    requires Inv(c) && Enabled(c, Check(i))
    ensures Inv(Next(c, Check(i)))
  {
    var d := Next(c, Check(i));
    assert WriteOk(c, i);
    var seen := c.writes[i].phase;
    var w := d.writes[i];
    assert d.writes == c.writes[i := w];
    TouchKeeps(c, i, w, d);
    PrefixUpdate(c.writes, i, w, c.mark, Exposure);
    if c.mark < seen.mark && Admissible(c, seen.total) {
      PrefixUpdate(c.writes, i, w, seen.mark, Exposure);
      ExposureWithinHeld(c.writes[..seen.mark]);
    }
  }

  lemma ReserveKeeps(c: Cache, size: nat)
    requires Inv(c) && Enabled(c, Reserve(size))
    ensures Inv(Next(c, Reserve(size)))
  {
    var d := Next(c, Reserve(size));
    SumConcat(c.writes, d.writes[|c.writes|..], Held);
    assert d.writes[..c.mark] == c.writes[..c.mark];
    forall j | 0 <= j < |d.writes|
      ensures WriteOk(d, j)
    {
      if j < |c.writes| {
        assert WriteOk(c, j);
        if c.writes[j].phase.Measured? {
          assert d.writes[..c.writes[j].phase.mark] == c.writes[..c.writes[j].phase.mark];
        }
      }
    }
  }

  lemma TouchStepKeeps(c: Cache, e: Event)
    requires Inv(c) && Enabled(c, e)
    requires !e.Check? && !e.Reserve? && !e.Reclaim?
    ensures Inv(Next(c, e))
  {
    var d := Next(c, e);
    var i := e.i;
    assert WriteOk(c, i);
    var w := d.writes[i];
    assert d.writes == c.writes[i := w];
    if e.Release? {
      HeldWithin(c.writes, i);
    }
    TouchKeeps(c, i, w, d);
    PrefixUpdate(c.writes, i, w, c.mark, Exposure);
  }

  lemma HeldWithin(ws: seq<Write>, i: nat)
    requires i < |ws|
    ensures Held(ws[i]) <= Sum(ws, Held)
  {
    SumUpdate(ws, i, ws[i].(phase := Gone), Held);
  }

  lemma StepKeeps(c: Cache, e: Event)
    requires Inv(c) && Enabled(c, e)
    ensures Inv(Next(c, e))
  {
    match e
    case Reserve(size) => ReserveKeeps(c, size);
    case Check(i) => CheckKeeps(c, i);
    case Reclaim(count) =>
      var d := Next(c, e);
      forall j | 0 <= j < |d.writes| ensures WriteOk(d, j) { assert WriteOk(c, j); }
    case _ => TouchStepKeeps(c, e);
  }

  // ----- whole runs -----

  /** `run` is a possible interleaving starting in `c` and ending in `d`. */
  ghost predicate Reaches(c: Cache, run: seq<Event>, d: Cache)
    decreases |run|
  {
    if run == [] then c == d
    else Enabled(c, run[0]) && Reaches(Next(c, run[0]), run[1..], d)
  }

  lemma {:induction false} RunKeeps(c: Cache, run: seq<Event>, d: Cache)
    requires Inv(c) && Reaches(c, run, d)
    ensures Inv(d) && d.minFree == c.minFree && d.maxPending == c.maxPending
    ensures c.mark <= d.mark && (d.mark == 0 ==> d.free >= c.free)
    decreases |run|
  {
    if run != [] {
      StepKeeps(c, run[0]);
      if run[0].Append? {
        assert WriteOk(c, run[0].i);
      }
      RunKeeps(Next(c, run[0]), run[1..], d);
    }
  }

  /** In every interleaving the free space covers the configured floor and every byte an
      admitted write may still add, from the first admission on, and from the very start
      when the disk begins above the floor.  The pending counter is the sum of the live
      reservations and stays within its cap. */
  lemma FloorHolds(c: Cache, run: seq<Event>, d: Cache)
    requires Fresh(c) && Reaches(c, run, d)
    ensures d.mark > 0 || c.free >= c.minFree ==> d.free >= d.minFree + Sum(d.writes, Unwritten)
    ensures d.mark == 0 ==> d.free >= c.free && Sum(d.writes, Unwritten) == 0
    ensures d.pending == Sum(d.writes, Held) <= d.maxPending
  {
    RunKeeps(c, run, d);
    assert d.writes == d.writes[..d.mark] + d.writes[d.mark..];
    SumConcat(d.writes[..d.mark], d.writes[d.mark..], Unwritten);
    SumBelow(d.writes[..d.mark], Unwritten, Exposure);
    forall w | w in d.writes[d.mark..]
      ensures Unwritten(w) == 0
    {
      var j :| d.mark <= j < |d.writes| && d.writes[j] == w;
      assert WriteOk(d, j);
    }
    SumZero(d.writes[d.mark..], Unwritten);
  }

  lemma {:induction false} SumAtLeast(ws: seq<Write>, i: nat, f: Write -> nat)
    requires i < |ws|
    ensures f(ws[i]) <= Sum(ws, f)
  {
    if i > 0 {
      SumAtLeast(ws[1..], i - 1, f);
    }
  }

  /** An admitted write can always finish: no step of it finds the disk full. */
  lemma AdmittedWriteFits(c: Cache, run: seq<Event>, d: Cache, i: nat, count: nat)
    requires Fresh(c) && Reaches(c, run, d) && Enabled(d, Append(i, count))
    ensures count <= d.free
  {
    FloorHolds(c, run, d);
    RunKeeps(c, run, d);
    assert WriteOk(d, i);
    SumAtLeast(d.writes, i, Unwritten);
  }

  // ----- asking for free space before reading the total -----

  /** The same check with the two reads exchanged: `space` is an older answer of the file
      system and the total is read last. */
  ghost function SwappedCheck(c: Cache, i: nat, space: nat): Cache
    requires i < |c.writes|
  {
    if c.minFree + c.pending <= space then SetPhase(c, i, Writing) else SetPhase(c, i, Closed)
  }

  lemma {:induction false} Extend(c: Cache, run: seq<Event>, d: Cache, e: Event)
    requires Reaches(c, run, d) && Enabled(d, e)
    ensures Reaches(c, run + [e], Next(d, e))
    decreases |run|
  {
    if run == [] {
      assert (run + [e])[1..] == [];
    } else {
      assert (run + [e])[1..] == run[1..] + [e];
      Extend(Next(c, run[0]), run[1..], d, e);
    }
  }

  /** Admission decided on `space` read in `m`, the total read only later in `d`. */
  ghost predicate OverfilledBy(c: Cache, before: seq<Event>, m: Cache, between: seq<Event>, d: Cache) {
    && Fresh(c) && c.free >= c.minFree
    && Reaches(c, before, m) && Reaches(m, between, d)
    && m.free >= 0 && 1 < |d.writes| && d.writes[1].phase.Queued?
    && var e := SwappedCheck(d, 1, m.free);
       e.free < e.minFree + Sum(e.writes, Unwritten)
  }

  lemma FirstAdmitted() returns (c: Cache, before: seq<Event>, m: Cache)
    ensures c == Cache(0, 100, 0, 10, [], 0) && Reaches(c, before, m)
    ensures m == Cache(0, 100, 20, 10, [Write(10, Writing, 0), Write(10, Queued, 0)], 1)
  {
    c := Cache(0, 100, 0, 10, [], 0);
    var c1 := Cache(0, 100, 10, 10, [Write(10, Queued, 0)], 0);
    var c2 := Cache(0, 100, 10, 10, [Write(10, Measured(10, 1), 0)], 0);
    var c3 := Cache(0, 100, 10, 10, [Write(10, Writing, 0)], 1);
    m := Next(c3, Reserve(10));
    Extend(c, [], c, Reserve(10));
    Extend(c, [] + [Reserve(10)], c1, Measure(0));
    Extend(c, [] + [Reserve(10)] + [Measure(0)], c2, Check(0));
    before := [] + [Reserve(10)] + [Measure(0)] + [Check(0)];
    assert Next(c2, Check(0)).writes == c3.writes;
    Extend(c, before, c3, Reserve(10));
    before := before + [Reserve(10)];
  }

  /** With the reads exchanged the floor fails: a write that finishes and releases between
      them is missing from both. */
  lemma SwappedOrderOverfills()
    ensures exists c, before, m, between, d :: OverfilledBy(c, before, m, between, d)
  {
    var c, before, m := FirstAdmitted();
    var m1 := Cache(0, 100, 20, 0, [Write(10, Writing, 10), Write(10, Queued, 0)], 1);
    var m2 := Cache(0, 100, 20, 0, [Write(10, Closed, 10), Write(10, Queued, 0)], 1);
    var d := Cache(0, 100, 10, 0, [Write(10, Gone, 10), Write(10, Queued, 0)], 1);
    Extend(m, [], m, Append(0, 10));
    Extend(m, [] + [Append(0, 10)], m1, Close(0));
    Extend(m, [] + [Append(0, 10)] + [Close(0)], m2, Release(0));
    assert Next(m2, Release(0)).writes == d.writes;
    var e := SwappedCheck(d, 1, m.free);
    assert e.writes == [Write(10, Gone, 10), Write(10, Writing, 0)];
    SumAtLeast(e.writes, 1, Unwritten);
    assert OverfilledBy(c, before, m, [] + [Append(0, 10)] + [Close(0)] + [Release(0)], d);
  }

  // ----- the shared counter -----

  /** The directory object shared by all writers.  Each method is one atomic access, so
      the steps of different writers may come in any order. */
  class CacheDirectory {
    const minFree: nat
    const maxPending: nat
    var pendingBytes: nat
    var issued: nat
    ghost var protocol: Cache

    ghost predicate Valid()
      reads this
    {
      && Inv(protocol) && protocol.pending == pendingBytes && |protocol.writes| == issued
      && protocol.minFree == minFree && protocol.maxPending == maxPending
    }

    constructor (minFree: nat, maxPending: nat, ghost free: int)
      ensures Valid() && Fresh(protocol) && protocol.free == free
      ensures this.minFree == minFree && this.maxPending == maxPending
    {
      this.minFree, this.maxPending, pendingBytes, issued := minFree, maxPending, 0, 0;
      protocol := Cache(minFree, maxPending, 0, free, [], 0);
    }

    /** Compare-and-swap loop of `reserve`, taken at the iteration that succeeds. */
    method ReserveBytes(size: nat) returns (reservation: Option<nat>)
      requires Valid()
      modifies this
      ensures Valid()
      ensures reservation.Some? <==> Fits(old(protocol), size)
      ensures reservation.Some? <==> old(pendingBytes) + (if size > 0 then size else 1) <= if maxPending < MAX_WORD then maxPending else MAX_WORD
      ensures pendingBytes == old(pendingBytes) + if reservation.None? then 0 else if size > 0 then size else 1
      ensures reservation.Some? ==>
                protocol == Next(old(protocol), Reserve(size)) && reservation.value == old(issued)
      ensures reservation.None? ==> protocol == old(protocol)
    {
      var bytes := if size == 0 then 1 else size;
      if pendingBytes + bytes > MAX_WORD || pendingBytes + bytes > maxPending {
        return None;
      }
      StepKeeps(protocol, Reserve(size));
      protocol := Next(protocol, Reserve(size));
      pendingBytes, issued := pendingBytes + bytes, issued + 1;
      reservation := Some(issued - 1);
    }

    /** First half of `admit`. */
    method LoadTotal(i: nat) returns (total: nat)
      requires Valid() && Enabled(protocol, Measure(i))
      modifies this`protocol
      ensures Valid() && protocol == Next(old(protocol), Measure(i))
      ensures total == protocol.writes[i].phase.total == pendingBytes
    {
      StepKeeps(protocol, Measure(i));
      total := pendingBytes;
      protocol := Next(protocol, Measure(i));
    }

    /** Second half of `admit`: `available` is the file system's answer now, `total` the
        value loaded before. */
    method Decide(i: nat, total: nat, available: nat) returns (admitted: bool)
      requires Valid() && Enabled(protocol, Check(i))
      requires protocol.writes[i].phase.total == total && protocol.free == available
      modifies this`protocol
      ensures Valid() && protocol == Next(old(protocol), Check(i))
      ensures admitted <==> protocol.writes[i].phase.Writing?
      ensures admitted <==> minFree + total <= MAX_WORD && available >= minFree + total
    {
      StepKeeps(protocol, Check(i));
      protocol := Next(protocol, Check(i));
      if minFree + total > MAX_WORD {
        return false;
      }
      admitted := available >= minFree + total;
    }

    /** Dropping a reservation of `bytes`. */
    method ReleaseBytes(i: nat, bytes: nat)
      requires Valid() && Enabled(protocol, Release(i)) && bytes == protocol.writes[i].Charge()
      modifies this
      ensures Valid() && protocol == Next(old(protocol), Release(i))
      ensures pendingBytes == old(pendingBytes) - bytes
    {
      HeldWithin(protocol.writes, i);
      StepKeeps(protocol, Release(i));
      protocol := Next(protocol, Release(i));
      pendingBytes := pendingBytes - bytes;
    }
  }
}
