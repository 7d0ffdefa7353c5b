/** The walk of a bundle and its nested bundles with an explicit stack of frames. */
module BundleTraversal {
  import opened Sequences
  import opened Wrappers
  import Paths

  type Id = nat
  type Path = Paths.Path

  type usize = x: nat | x <= 0xFFFF_FFFF_FFFF_FFFF

  /** What verifying an entry finds. */
  datatype Verdict = Broken | Unverifiable | Verified

  /** The data of an item: not a bundle, a bundle that cannot be framed, or its entries. */
  datatype Payload = Plain | Malformed | Bundle(format: bool, entries: seq<Entry>)

  /** One framed entry; `json` is the format of the bundle it is framed in, and the format
      of a bundle is true for JSON.  `other` stands for metadata that is only compared.
      `itemId`, `dataOffset` and `payload` belong to the verified item. */
  datatype Entry = Entry(id: Option<Id>, offset: usize, size: usize, json: bool, verdict: Verdict,
                         itemId: Id, dataOffset: usize, dataSize: usize, payload: Payload, other: nat)

  datatype Occurrence = Occurrence(entry: Entry, path: Path, parent: Id)

  /** Does the configured filter match the item? */
  type Filter = Entry -> bool

  /** Nested bundles stay indexed so their descendants keep a stored parent. */
  predicate Keeps(filter: Filter, e: Entry) {
    e.payload != Plain || filter(e)
  }

  datatype Outcome = Skip | Fail | Keep

  /** A rejected binary item is skipped before its signature is checked; a JSON item is
      checked first and skipped when it does not verify. */
  function Judge(filter: Filter, e: Entry): Outcome {
    if e.id.None? then Skip
    else if e.verdict.Broken? then Fail
    else if e.json then
      if e.verdict.Verified? && Keeps(filter, e) then Keep else Skip
    else if !Keeps(filter, e) then Skip
    else if e.verdict.Verified? then Keep
    else Fail
  }

  // ----- the recursive meaning -----

  /** Occurrences in order, then success or an error. */
  datatype Stream = Stream(items: seq<Occurrence>, ok: bool)

  function Then(a: Stream, b: Stream): Stream {
    if a.ok then Stream(a.items + b.items, b.ok) else a
  }

  /** Opening an item's payload, `depth` frames being open: too deep or badly framed
      payloads fail before the item itself is reported. */
  predicate Opens(e: Entry, depth: nat) {
    match e.payload
    case Plain => true
    case Malformed => false
    case Bundle(_, entries) => entries == [] || depth < Paths.MAX_DEPTH
  }

  function Children(e: Entry): seq<Entry> {
    if e.payload.Bundle? then e.payload.entries else []
  }

  /** Depth-first, parents before children. */
  ghost function Walk(filter: Filter, entries: seq<Entry>, parent: Id, path: Path): Stream
    decreases entries
  {
    if entries == [] then Stream([], true)
    else
      var e := entries[0];
      var rest := Walk(filter, entries[1..], parent, path);
      match Judge(filter, e)
      case Skip => rest
      case Fail => Stream([], false)
      case Keep =>
        if !Opens(e, |path| + 1) then Stream([], false)
        else
          Then(Stream([Occurrence(e, path + [e.offset], parent)], true),
               Then(Inside(filter, e, path + [e.offset]), rest))
  }

  /** The occurrences below one item. */
  ghost function Inside(filter: Filter, e: Entry, path: Path): Stream
    decreases e
  {
    match e.payload
    case Bundle(_, entries) => Walk(filter, entries, e.itemId, path)
    case _ => Stream([], true)
  }

  // ----- the stack machine -----

  datatype Frame = Frame(items: seq<Entry>, id: Id, path: Path, pending: Option<Entry>) {
    /** The entries the frame still has to deliver. */
    function Left(): seq<Entry> {
      (if pending.Some? then [pending.value] else []) + items
    }
  }

  ghost function StackStream(filter: Filter, stack: seq<Frame>): Stream {
    if stack == [] then Stream([], true)
    else
      var top := stack[|stack| - 1];
      Then(Walk(filter, top.Left(), top.id, top.path), StackStream(filter, stack[..|stack| - 1]))
  }

  ghost function Effort(stack: seq<Frame>): nat {
    if stack == [] then 0 else 1 + |stack[|stack| - 1].Left()| + Effort(stack[..|stack| - 1])
  }

  lemma ThenAssociative(a: Stream, b: Stream, c: Stream)
    ensures Then(Then(a, b), c) == Then(a, Then(b, c))
  {
    if a.ok && b.ok {
      assert (a.items + b.items) + c.items == a.items + (b.items + c.items);
    }
  }

  lemma ThenNothing(a: Stream)
    ensures Then(Stream([], true), a) == a
  {
    assert [] + a.items == a.items;
  }

  lemma StackTop(filter: Filter, under: seq<Frame>, top: Frame)
    ensures StackStream(filter, under + [top])
         == Then(Walk(filter, top.Left(), top.id, top.path), StackStream(filter, under))
    ensures Effort(under + [top]) == 1 + |top.Left()| + Effort(under)
  {
    var stack := under + [top];
    assert stack[|stack| - 1] == top && stack[..|stack| - 1] == under;
  }

  /** Opening a kept item: it is reported, its children go on top, its siblings stay below. */
  lemma KeepStep(filter: Filter, under: seq<Frame>, parent: Frame, next: Frame, stack: seq<Frame>)
    requires parent.Left() != [] && Judge(filter, parent.Left()[0]) == Keep && Opens(parent.Left()[0], |parent.path| + 1)
    requires next.id == parent.id && next.path == parent.path && next.Left() == parent.Left()[1..]
    requires var e := parent.Left()[0];
             var children := Children(e);
             stack == under + [next] +
               if children == [] then []
               else [Frame(children[1..], e.itemId, parent.path + [e.offset], Some(children[0]))]
    ensures var e := parent.Left()[0];
            Yields(StackStream(filter, under + [parent]), Occurrence(e, parent.path + [e.offset], parent.id),
                   StackStream(filter, stack))
  {
    var e := parent.Left()[0];
    var path := parent.path + [e.offset];
    var below := StackStream(filter, under);
    var rest := Walk(filter, next.Left(), parent.id, parent.path);
    var inner := Inside(filter, e, path);
    var here := Stream([Occurrence(e, path, parent.id)], true);
    StackTop(filter, under, parent);
    StackTop(filter, under, next);
    ThenAssociative(here, Then(inner, rest), below);
    ThenAssociative(inner, rest, below);
    var children := Children(e);
    var tail := Then(inner, Then(rest, below));
    assert StackStream(filter, under + [parent]) == Then(here, tail);
    if children == [] {
      assert under + [next] + [] == under + [next];
      if e.payload.Bundle? {
        assert inner == Walk(filter, e.payload.entries, e.itemId, path);
      }
      ThenNothing(Then(rest, below));
    } else {
      var child := Frame(children[1..], e.itemId, path, Some(children[0]));
      assert child.Left() == children;
      StackTop(filter, under + [next], child);
    }
  }

  class BundleTraversal {
    var stack: seq<Frame>

    ghost predicate Valid()
      reads this
    {
      forall i | 0 <= i < |stack| :: |stack[i].path| == i
    }

    constructor (entries: seq<Entry>, rootId: Id)
      ensures Valid() && fresh(this)
      ensures forall filter :: StackStream(filter, stack) == Walk(filter, entries, rootId, [])
    {
      stack := [Frame(entries, rootId, [], None)];
      new;
      forall filter: Filter
        ensures StackStream(filter, stack) == Walk(filter, entries, rootId, [])
      {
        StackTop(filter, [], stack[0]);
        assert [] + [stack[0]] == stack && stack[0].Left() == entries;
        var w := Walk(filter, entries, rootId, []);
        assert w.items + [] == w.items;
      }
    }

    /** One turn of the loop: takes the next entry of the top frame.  `None` means that
        nothing was reported and the walk goes on. */
    method TakeEntry(filter: Filter) returns (r: Result<Option<Occurrence>>)
      requires Valid() && stack != []
      modifies this
      ensures Valid()
      ensures r.Err? ==> old(StackStream(filter, stack)) == Stream([], false)
      ensures r == Ok(None) ==>
                && StackStream(filter, stack) == old(StackStream(filter, stack))
                && Effort(stack) < old(Effort(stack))
      ensures r.Ok? && r.value.Some? ==> Yields(old(StackStream(filter, stack)), r.value.value, StackStream(filter, stack))
    {
      hide StackStream, Effort, Keeps;
      var under := stack[..|stack| - 1];
      var parent := stack[|stack| - 1];
      assert stack == under + [parent];
      StackTop(filter, under, parent);
      if parent.Left() == [] {
        ThenNothing(StackStream(filter, under));
        stack := under;
        return Ok(None);
      }
      var entry := parent.Left()[0];
      var next := Frame(if parent.pending.Some? then parent.items else parent.items[1..], parent.id, parent.path, None);
      assert next.Left() == parent.Left()[1..];
      if Judge(filter, entry) == Skip {
        StackTop(filter, under, next);
        stack := under + [next];
        return Ok(None);
      }
      if Judge(filter, entry) == Fail || !Opens(entry, |stack|) {
        return Err;
      }
      var path := parent.path + [entry.offset];
      var children := Children(entry);
      stack := under + [next] +
        if children == [] then [] else [Frame(children[1..], entry.itemId, path, Some(children[0]))];
      KeepStep(filter, under, parent, next, stack);
      r := Ok(Some(Occurrence(entry, path, parent.id)));
    }

    /** The next occurrence of the remaining stream, its end, or its error. */
    method NextMatching(filter: Filter) returns (r: Result<Option<Occurrence>>)
      requires Valid()
      modifies this
      ensures Valid()
      ensures r.Err? ==> old(StackStream(filter, stack)) == Stream([], false)
      ensures r == Ok(None) ==> old(StackStream(filter, stack)) == Stream([], true) && stack == []
      ensures r.Ok? && r.value.Some? ==> Yields(old(StackStream(filter, stack)), r.value.value, StackStream(filter, stack))
    {
      while stack != []
        invariant Valid() && StackStream(filter, stack) == old(StackStream(filter, stack))
        decreases Effort(stack)
      {
        r := TakeEntry(filter);
        if r.Err? || r.value.Some? {
          return;
        }
      }
      r := Ok(None);
    }
  }

  /** `s` starts with `o` and goes on as `rest`. */
  ghost predicate Yields(s: Stream, o: Occurrence, rest: Stream) {
    s.items == [o] + rest.items && s.ok == rest.ok
  }

  // ----- order, depth and parents -----

  /** Framing gives entries increasing offsets, in every nested payload. */
  ghost predicate Framed(entries: seq<Entry>)
    decreases entries
  {
    && (forall i, j | 0 <= i < j < |entries| :: entries[i].offset < entries[j].offset)
    && (forall e | e in entries :: FramedPayload(e))
  }

  ghost predicate FramedPayload(e: Entry)
    decreases e
  {
    match e.payload
    case Bundle(_, entries) => Framed(entries)
    case _ => true
  }

  /** An occurrence below `base`, at or after offset `low`. */
  ghost predicate Below(o: Occurrence, base: Path, low: nat) {
    && |base| < |o.path| <= Paths.MAX_DEPTH
    && o.path[..|base|] == base && o.path[|base|] >= low
    && o.path[|o.path| - 1] == o.entry.offset
  }

  ghost predicate PathOrder(items: seq<Occurrence>) {
    forall i, j | 0 <= i < j < |items| :: Paths.Less(items[i].path, items[j].path)
  }

  lemma FramedTail(entries: seq<Entry>)
    requires Framed(entries) && entries != []
    ensures Framed(entries[1..]) && FramedPayload(entries[0])
    ensures forall e | e in entries[1..] :: entries[0].offset < e.offset
  {
    assert entries[0] in entries;
    forall i, j | 0 <= i < j < |entries[1..]|
      ensures entries[1..][i].offset < entries[1..][j].offset
    {
      assert entries[1..][i] == entries[i + 1] && entries[1..][j] == entries[j + 1];
    }
  }

  /** Paths come out in strictly increasing order, so no two occurrences share one, and
      never deeper than the limit. */
  lemma {:induction false} WalkInOrder(filter: Filter, entries: seq<Entry>, parent: Id, base: Path, low: nat)
    requires Framed(entries) && |base| < Paths.MAX_DEPTH
    requires forall e | e in entries :: e.offset >= low
    ensures forall o | o in Walk(filter, entries, parent, base).items :: Below(o, base, low)
    ensures PathOrder(Walk(filter, entries, parent, base).items)
    decreases entries
  {
    if entries != [] {
      var e := entries[0];
      FramedTail(entries);
      var rest := Walk(filter, entries[1..], parent, base);
      WalkInOrder(filter, entries[1..], parent, base, e.offset + 1);
      if Judge(filter, e) == Keep && Opens(e, |base| + 1) {
        var path := base + [e.offset];
        var inner := Inside(filter, e, path);
        InsideInOrder(filter, e, path);
        var here := Occurrence(e, path, parent);
        forall o | o in inner.items
          ensures Below(o, base, e.offset) && o.path[|base|] == e.offset && Paths.Less(path, o.path)
        {
          assert o.path[..|path|] == path;
          assert o.path[..|base|] == path[..|base|] == base;
          assert o.path[|base|] == path[|base|];
          Paths.ExtensionLess(path, o.path);
        }
        forall o, r | (o == here || o in inner.items) && r in rest.items
          ensures Paths.Less(o.path, r.path)
        {
          Paths.FirstDifference(o.path, r.path, |base|);
        }
        assert entries[0] in entries;
        var walk := Walk(filter, entries, parent, base);
        assert walk.items <= [here] + inner.items + rest.items;
        OrderedConcat(here, inner.items, rest.items);
      }
    }
  }

  lemma {:induction false} InsideInOrder(filter: Filter, e: Entry, path: Path)
    requires FramedPayload(e) && Opens(e, |path|) && |path| <= Paths.MAX_DEPTH
    ensures forall o | o in Inside(filter, e, path).items :: Below(o, path, 0)
    ensures PathOrder(Inside(filter, e, path).items)
    decreases e
  {
    if e.payload.Bundle? && e.payload.entries != [] {
      WalkInOrder(filter, e.payload.entries, e.itemId, path, 0);
    }
  }

  lemma OrderedConcat(here: Occurrence, inner: seq<Occurrence>, rest: seq<Occurrence>)
    requires PathOrder(inner) && PathOrder(rest)
    requires forall o | o in inner :: Paths.Less(here.path, o.path)
    requires forall o, r | (o == here || o in inner) && r in rest :: Paths.Less(o.path, r.path)
    ensures PathOrder([here] + inner + rest)
  {
    var all := [here] + inner + rest;
    forall i, j | 0 <= i < j < |all|
      ensures Paths.Less(all[i].path, all[j].path)
    {
      assert all[j] in inner || all[j] in rest;
      if i > |inner| {
        assert all[i] == rest[i - 1 - |inner|];
      } else if 0 < i {
        assert all[i] == inner[i - 1];
      }
    }
  }

  /** The parent of an occurrence is the item reported at the path before the last step. */
  ghost predicate ParentBefore(items: seq<Occurrence>, i: nat, parent: Id, base: Path)
    requires i < |items|
  {
    var o := items[i];
    |o.path| > |base| &&
    if |o.path| == |base| + 1 then o.parent == parent
    else exists j ::
      0 <= j < i && items[j].path == o.path[..|o.path| - 1] && items[j].entry.itemId == o.parent
      && items[j].entry.payload.Bundle? && o.entry in items[j].entry.payload.entries
  }

  ghost predicate ParentsFirst(items: seq<Occurrence>, parent: Id, base: Path) {
    forall i | 0 <= i < |items| :: ParentBefore(items, i, parent, base)
  }

  lemma {:induction false} WalkParents(filter: Filter, entries: seq<Entry>, parent: Id, base: Path)
    ensures ParentsFirst(Walk(filter, entries, parent, base).items, parent, base)
    ensures forall o | o in Walk(filter, entries, parent, base).items && |o.path| == |base| + 1 :: o.entry in entries
    ensures forall o | o in Walk(filter, entries, parent, base).items :: |o.path| > |base| && o.path[..|base|] == base
    decreases entries
  {
    if entries != [] {
      var e := entries[0];
      var rest := Walk(filter, entries[1..], parent, base);
      WalkParents(filter, entries[1..], parent, base);
      if Judge(filter, e) == Keep && Opens(e, |base| + 1) {
        var path := base + [e.offset];
        var inner := Inside(filter, e, path);
        InsideParents(filter, e, path);
        var here := Occurrence(e, path, parent);
        var walk := Walk(filter, entries, parent, base);
        assert walk.items <= [here] + inner.items + rest.items;
        assert walk.items == [here] + inner.items || walk.items == [here] + inner.items + rest.items;
        ParentsConcat(here, inner.items, rest.items, parent, base);
        PrefixParents([here] + inner.items + rest.items, [here] + inner.items, parent, base);
        forall o | o in inner.items
          ensures |o.path| > |base| + 1 && o.path[..|base|] == base
        {
          assert o.path[..|path|] == path;
          assert o.path[..|base|] == path[..|base|];
        }
      }
    }
  }

  lemma {:induction false} InsideParents(filter: Filter, e: Entry, path: Path)
    ensures ParentsFirst(Inside(filter, e, path).items, e.itemId, path)
    ensures e.payload.Bundle? ==>
              forall o | o in Inside(filter, e, path).items && |o.path| == |path| + 1 :: o.entry in e.payload.entries
    ensures forall o | o in Inside(filter, e, path).items :: |o.path| > |path| && o.path[..|path|] == path
    decreases e
  {
    if e.payload.Bundle? {
      WalkParents(filter, e.payload.entries, e.itemId, path);
    }
  }

  lemma PrefixParents(all: seq<Occurrence>, some: seq<Occurrence>, parent: Id, base: Path)
    requires ParentsFirst(all, parent, base) && some <= all
    ensures ParentsFirst(some, parent, base)
  {
    forall i | 0 <= i < |some|
      ensures ParentBefore(some, i, parent, base)
    {
      assert ParentBefore(all, i, parent, base);
    }
  }

  lemma ParentsConcat(here: Occurrence, inner: seq<Occurrence>, rest: seq<Occurrence>, parent: Id, base: Path)
    requires here.path == base + [here.entry.offset] && here.parent == parent
    requires ParentsFirst(inner, here.entry.itemId, here.path) && ParentsFirst(rest, parent, base)
    requires forall o | o in inner :: |o.path| > |here.path| && o.path[..|here.path|] == here.path
    requires inner != [] ==> here.entry.payload.Bundle?
    requires here.entry.payload.Bundle? ==>
               forall o | o in inner && |o.path| == |here.path| + 1 :: o.entry in here.entry.payload.entries
    ensures ParentsFirst([here] + inner + rest, parent, base)
  {
    var all := [here] + inner + rest;
    forall i | 0 <= i < |all|
      ensures ParentBefore(all, i, parent, base)
    {
      if 0 < i <= |inner| {
        var o := inner[i - 1];
        assert all[i] == o && o in inner;
        assert ParentBefore(inner, i - 1, here.entry.itemId, here.path);
        if |o.path| == |here.path| + 1 {
          assert all[0] == here;
        } else {
          var j :| 0 <= j < i - 1 && inner[j].path == o.path[..|o.path| - 1] && inner[j].entry.itemId == o.parent
                   && inner[j].entry.payload.Bundle? && o.entry in inner[j].entry.payload.entries;
          assert all[j + 1] == inner[j];
        }
      } else if i > |inner| {
        var k := i - 1 - |inner|;
        assert all[i] == rest[k];
        assert ParentBefore(rest, k, parent, base);
        if |rest[k].path| != |base| + 1 {
          var j :| 0 <= j < k && rest[j].path == rest[k].path[..|rest[k].path| - 1] && rest[j].entry.itemId == rest[k].parent
                   && rest[j].entry.payload.Bundle? && rest[k].entry in rest[j].entry.payload.entries;
          assert all[1 + |inner| + j] == rest[j];
        }
      }
    }
  }

  // ----- what is reported, and what stops a walk -----

  /** The item is found to be what its entry says, and it is a bundle or the filter wants it. */
  ghost predicate Wanted(filter: Filter, e: Entry) {
    e.id.Some? && e.verdict == Verified && (e.payload != Plain || filter(e))
  }

  /** A chain of entries from the root down, all but the last of them wanted bundles that hold the next. */
  ghost predicate Trail(filter: Filter, entries: seq<Entry>, trail: seq<Entry>)
    decreases |trail|
  {
    && trail != [] && trail[0] in entries
    && (|trail| > 1 ==> Wanted(filter, trail[0]) && trail[0].payload.Bundle? && Trail(filter, trail[0].payload.entries, trail[1..]))
  }

  ghost function Offsets(trail: seq<Entry>): Path {
    if trail == [] then [] else [trail[0].offset] + Offsets(trail[1..])
  }

  /** Where the end of a chain occurs. */
  ghost function OccurrenceAt(trail: seq<Entry>, parent: Id, base: Path): Occurrence
    requires trail != []
  {
    Occurrence(trail[|trail| - 1], base + Offsets(trail), if |trail| == 1 then parent else trail[|trail| - 2].itemId)
  }

  /** What cannot be reported and cannot be passed over: an entry with an id that is broken, a binary item that is
      wanted but for its signature, or a wanted item whose bundle cannot be framed or lies too deep. */
  ghost predicate Faulty(filter: Filter, e: Entry, depth: nat) {
    e.id.Some? &&
    ( e.verdict == Broken
      || (e.verdict == Unverifiable && !e.json && (e.payload != Plain || filter(e)))
      || (Wanted(filter, e) && (e.payload == Malformed || (e.payload.Bundle? && e.payload.entries != [] && depth >= 32))))
  }

  /** How an entry is treated, by what it is. */
  lemma Treatment(filter: Filter, e: Entry, depth: nat)
    ensures Wanted(filter, e) && !Faulty(filter, e, depth) <==> Judge(filter, e) == Keep && Opens(e, depth)
    ensures Faulty(filter, e, depth) <==> Judge(filter, e) == Fail || (Judge(filter, e) == Keep && !Opens(e, depth))
  {
  }

  lemma TrailTail(filter: Filter, entries: seq<Entry>, trail: seq<Entry>)
    requires entries != []
    ensures Trail(filter, entries, trail) <==>
              (trail != [] && trail[0] == entries[0] && Trail(filter, [entries[0]], trail)) || Trail(filter, entries[1..], trail)
  {
  }

  lemma OccurrenceBelow(e: Entry, trail: seq<Entry>, parent: Id, base: Path)
    requires trail != []
    ensures OccurrenceAt([e] + trail, parent, base) == OccurrenceAt(trail, e.itemId, base + [e.offset])
  {
    assert ([e] + trail)[1..] == trail;
    assert base + ([e.offset] + Offsets(trail)) == (base + [e.offset]) + Offsets(trail);
  }

  lemma OccurrenceHere(e: Entry, parent: Id, base: Path)
    ensures OccurrenceAt([e], parent, base) == Occurrence(e, base + [e.offset], parent)
  {
    assert Offsets([e]) == [e.offset] + [];
  }

  /** Everything reported is wanted and lies at the end of a chain. */
  lemma {:induction false} WalkReports(filter: Filter, entries: seq<Entry>, parent: Id, base: Path, o: Occurrence)
    returns (trail: seq<Entry>)
    requires o in Walk(filter, entries, parent, base).items
    ensures Wanted(filter, o.entry)
    ensures Trail(filter, entries, trail) && o == OccurrenceAt(trail, parent, base)
    decreases entries
  {
    var e := entries[0];
    Treatment(filter, e, |base| + 1);
    hide Judge, Opens;
    if Wanted(filter, e) && !Faulty(filter, e, |base| + 1) {
      var path := base + [e.offset];
      if o == Occurrence(e, path, parent) {
        OccurrenceHere(e, parent, base);
        return [e];
      }
      if o in Inside(filter, e, path).items {
        trail := WalkReports(filter, e.payload.entries, e.itemId, path, o);
        OccurrenceBelow(e, trail, parent, base);
        assert ([e] + trail)[1..] == trail;
        return [e] + trail;
      }
    }
    trail := WalkReports(filter, entries[1..], parent, base, o);
    TrailTail(filter, entries, trail);
  }

  /** A walk that succeeds reports the wanted end of every chain. */
  lemma {:induction false} WalkMisses(filter: Filter, entries: seq<Entry>, parent: Id, base: Path, trail: seq<Entry>)
    requires Walk(filter, entries, parent, base).ok && Trail(filter, entries, trail) && Wanted(filter, trail[|trail| - 1])
    ensures OccurrenceAt(trail, parent, base) in Walk(filter, entries, parent, base).items
    decreases entries
  {
    var e := entries[0];
    Treatment(filter, e, |base| + 1);
    TrailTail(filter, entries, trail);
    hide Judge, Opens;
    if Trail(filter, entries[1..], trail) {
      WalkMisses(filter, entries[1..], parent, base, trail);
    } else {
      var path := base + [e.offset];
      if |trail| == 1 {
        assert trail == [e];
        OccurrenceHere(e, parent, base);
      } else {
        WalkMisses(filter, e.payload.entries, e.itemId, path, trail[1..]);
        OccurrenceBelow(e, trail[1..], parent, base);
        assert [e] + trail[1..] == trail;
      }
    }
  }

  /** A walk fails only at the faulty end of a chain. */
  lemma {:induction false} FailureCause(filter: Filter, entries: seq<Entry>, parent: Id, base: Path) returns (trail: seq<Entry>)
    requires !Walk(filter, entries, parent, base).ok
    ensures Trail(filter, entries, trail) && Faulty(filter, trail[|trail| - 1], |base| + |trail|)
    decreases entries
  {
    var e := entries[0];
    Treatment(filter, e, |base| + 1);
    hide Judge, Opens, Faulty;
    if Faulty(filter, e, |base| + 1) {
      trail := [e];
    } else if Wanted(filter, e) && !Inside(filter, e, base + [e.offset]).ok {
      var below := FailureCause(filter, e.payload.entries, e.itemId, base + [e.offset]);
      trail := [e] + below;
      assert trail[1..] == below;
    } else {
      trail := FailureCause(filter, entries[1..], parent, base);
      TrailTail(filter, entries, trail);
    }
  }

  /** And it fails wherever there is one. */
  lemma {:induction false} FaultFails(filter: Filter, entries: seq<Entry>, parent: Id, base: Path, trail: seq<Entry>)
    requires Trail(filter, entries, trail) && Faulty(filter, trail[|trail| - 1], |base| + |trail|)
    ensures !Walk(filter, entries, parent, base).ok
    decreases entries
  {
    var e := entries[0];
    Treatment(filter, e, |base| + 1);
    TrailTail(filter, entries, trail);
    hide Judge, Opens, Faulty;
    if Trail(filter, entries[1..], trail) {
      FaultFails(filter, entries[1..], parent, base, trail);
    } else if |trail| > 1 && !Faulty(filter, e, |base| + 1) {
      FaultFails(filter, e.payload.entries, e.itemId, base + [e.offset], trail[1..]);
    }
  }

  /** The whole bundle: it is walked to its end exactly if no chain ends in a faulty entry, and then exactly the
      wanted ends of chains are reported.  Nothing else is ever reported. */
  lemma WalkIsExact(filter: Filter, entries: seq<Entry>, root: Id)
    ensures Walk(filter, entries, root, []).ok <==>
              forall trail | Trail(filter, entries, trail) :: !Faulty(filter, trail[|trail| - 1], |trail|)
    ensures Walk(filter, entries, root, []).ok ==>
              forall o :: o in Walk(filter, entries, root, []).items <==>
                exists trail :: Trail(filter, entries, trail) && Wanted(filter, trail[|trail| - 1]) && o == OccurrenceAt(trail, root, [])
    ensures forall o | o in Walk(filter, entries, root, []).items ::
              o.entry.id.Some? && o.entry.verdict == Verified && (o.entry.payload != Plain || filter(o.entry))
  {
    hide Walk, Faulty;
    var walk := Walk(filter, entries, root, []);
    if !walk.ok {
      var trail := FailureCause(filter, entries, root, []);
    }
    forall trail | Trail(filter, entries, trail) && Faulty(filter, trail[|trail| - 1], |trail|)
      ensures !walk.ok
    {
      FaultFails(filter, entries, root, [], trail);
    }
    forall o | o in walk.items
      ensures Wanted(filter, o.entry)
      ensures exists trail :: Trail(filter, entries, trail) && Wanted(filter, trail[|trail| - 1]) && o == OccurrenceAt(trail, root, [])
    {
      var trail := WalkReports(filter, entries, root, [], o);
    }
    forall trail | Trail(filter, entries, trail) && walk.ok && Wanted(filter, trail[|trail| - 1])
      ensures OccurrenceAt(trail, root, []) in walk.items
    {
      WalkMisses(filter, entries, root, [], trail);
    }
  }

  // ----- filtering -----

  ghost function KeepMatching(filter: Filter, items: seq<Occurrence>): seq<Occurrence> {
    if items == [] then []
    else (if Keeps(filter, items[0].entry) then [items[0]] else []) + KeepMatching(filter, items[1..])
  }

  lemma {:induction false} KeepConcat(filter: Filter, a: seq<Occurrence>, b: seq<Occurrence>)
    ensures KeepMatching(filter, a + b) == KeepMatching(filter, a) + KeepMatching(filter, b)
  {
    if a == [] {
      assert a + b == b;
    } else {
      hide Keeps;
      assert (a + b)[1..] == a[1..] + b;
      KeepConcat(filter, a[1..], b);
      ConcatAssoc(if Keeps(filter, a[0].entry) then [a[0]] else [], KeepMatching(filter, a[1..]), KeepMatching(filter, b));
    }
  }

  /** When everything verifies, filtering while walking equals walking everything and
      dropping the rejected items afterwards. */
  lemma {:induction false} FilterCommutes(filter: Filter, entries: seq<Entry>, parent: Id, path: Path)
    requires Walk(e => true, entries, parent, path).ok
    ensures Walk(filter, entries, parent, path)
         == Stream(KeepMatching(filter, Walk(e => true, entries, parent, path).items), true)
    decreases entries
  {
    if entries != [] {
      var e := entries[0];
      var every: Filter := e => true;
      var rest := Walk(every, entries[1..], parent, path);
      if Judge(every, e) == Skip {
        FilterCommutes(filter, entries[1..], parent, path);
      } else {
        var here := Occurrence(e, path + [e.offset], parent);
        var inner := Inside(every, e, path + [e.offset]);
        assert inner.ok && rest.ok;
        FilterCommutes(filter, entries[1..], parent, path);
        FilterInside(filter, e, path + [e.offset]);
        assert Walk(every, entries, parent, path).items == [here] + (inner.items + rest.items);
        KeepConcat(filter, inner.items, rest.items);
        KeepConcat(filter, [here], inner.items + rest.items);
      }
    }
  }

  lemma {:induction false} FilterInside(filter: Filter, e: Entry, path: Path)
    requires Inside(e => true, e, path).ok
    ensures Inside(filter, e, path) == Stream(KeepMatching(filter, Inside(e => true, e, path).items), true)
    decreases e
  {
    if e.payload.Bundle? {
      FilterCommutes(filter, e.payload.entries, e.itemId, path);
    }
  }
}
